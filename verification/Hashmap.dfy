/** The chained hash map over a slot table, against an association list in insertion order. */
module Hashmap {
  import opened Options
  import opened LinkedList
  import opened Selection

  datatype Entry<+K, +V> = Entry(key: K, value: V)

  /** A slot of the node table; `node` is the address of its insertion-list cell. */
  datatype Slot<+K, +V> = Free | Used(key: K, value: V, node: nat)

  datatype Bucket = Bucket(ends: Ends, nChains: nat)

  // ----- the association list

  /** The value of the oldest entry for the key. */
  function Lookup<K, V>(entries: seq<Entry<K, V>>, equals: (K, K) -> bool, key: K): Option<V> {
    if entries == [] then None
    else if equals(key, entries[0].key) then Some(entries[0].value)
    else Lookup(entries[1..], equals, key)
  }

  /** The list without the oldest entry for the key. */
  function RemoveFirst<K, V>(entries: seq<Entry<K, V>>, equals: (K, K) -> bool, key: K): seq<Entry<K, V>> {
    if entries == [] then []
    else if equals(key, entries[0].key) then entries[1..]
    else [entries[0]] + RemoveFirst(entries[1..], equals, key)
  }

  // ----- slots in insertion order

  predicate AllUsed<K, V>(slots: seq<nat>, table: seq<Slot<K, V>>) {
    forall i :: 0 <= i < |slots| ==> slots[i] < |table| && table[slots[i]].Used?
  }

  function EntriesOf<K, V>(slots: seq<nat>, table: seq<Slot<K, V>>): (r: seq<Entry<K, V>>)
    requires AllUsed(slots, table)
    ensures |r| == |slots|
  {
    if slots == [] then []
    else [Entry(table[slots[0]].key, table[slots[0]].value)] + EntriesOf(slots[1..], table)
  }

  /** The slot holds an entry for the key. */
  function Matches<K, V>(table: seq<Slot<K, V>>, equals: (K, K) -> bool, key: K): nat -> bool {
    (s: nat) => s < |table| && table[s].Used? && equals(key, table[s].key)
  }

  /** The first slot that holds an entry for the key. */
  function FirstSlot<K, V>(slots: seq<nat>, table: seq<Slot<K, V>>, equals: (K, K) -> bool, key: K): Option<nat> {
    First<nat>(slots, Matches(table, equals, key))
  }

  /** The slot holds a key of bucket `b`. */
  function Home<K, V>(table: seq<Slot<K, V>>, hash: K -> nat, b: nat): nat -> bool {
    (s: nat) => s < |table| && table[s].Used? && hash(table[s].key) % |table| == b
  }

  lemma {:induction false} LookupIsFirst<K, V>(slots: seq<nat>, table: seq<Slot<K, V>>, equals: (K, K) -> bool, key: K)
    requires AllUsed(slots, table)
    ensures var s := FirstSlot(slots, table, equals, key);
      Lookup(EntriesOf(slots, table), equals, key)
        == if s.Some? && s.value < |table| && table[s.value].Used? then Some(table[s.value].value) else None
    ensures var s := FirstSlot(slots, table, equals, key); s.Some? ==> s.value < |table| && table[s.value].Used?
  {
    if slots != [] {
      LookupIsFirst(slots[1..], table, equals, key);
      assert EntriesOf(slots, table)[1..] == EntriesOf(slots[1..], table);
    }
  }

  lemma {:induction false} DropUsed<K, V>(slots: seq<nat>, table: seq<Slot<K, V>>, s: nat)
    requires AllUsed(slots, table)
    ensures AllUsed(Drop(slots, s), table)
  {
    if slots != [] {
      DropUsed(slots[1..], table, s);
    }
  }

  lemma {:induction false} RemoveIsDrop<K, V>(slots: seq<nat>, table: seq<Slot<K, V>>, equals: (K, K) -> bool, key: K)
    requires AllUsed(slots, table) && Distinct(slots)
    ensures var s := FirstSlot(slots, table, equals, key);
      && (s.None? ==> RemoveFirst(EntriesOf(slots, table), equals, key) == EntriesOf(slots, table))
      && (s.Some? ==>
            AllUsed(Drop(slots, s.value), table)
            && RemoveFirst(EntriesOf(slots, table), equals, key) == EntriesOf(Drop(slots, s.value), table))
  {
    if slots != [] {
      RemoveIsDrop(slots[1..], table, equals, key);
      assert EntriesOf(slots, table)[1..] == EntriesOf(slots[1..], table);
      var s := FirstSlot(slots, table, equals, key);
      if s.Some? {
        DropUsed(slots, table, s.value);
        if s.value != slots[0] {
          DropHead(slots, table, s.value);
        } else {
          FirstMatches(slots, Matches(table, equals, key));
        }
      }
    }
  }

  lemma DropHead<K, V>(slots: seq<nat>, table: seq<Slot<K, V>>, s: nat)
    requires slots != [] && slots[0] != s && AllUsed(slots, table)
    requires AllUsed(Drop(slots, s), table) && AllUsed(Drop(slots[1..], s), table)
    ensures EntriesOf(Drop(slots, s), table)
         == [Entry(table[slots[0]].key, table[slots[0]].value)] + EntriesOf(Drop(slots[1..], s), table)
  {
    assert Drop(slots, s)[1..] == Drop(slots[1..], s);
  }

  /** The first match is a match. */
  lemma {:induction false} FirstMatches(slots: seq<nat>, wanted: nat -> bool)
    ensures First(slots, wanted).Some? ==> wanted(First(slots, wanted).value) && First(slots, wanted).value in slots
  {
    if slots != [] {
      FirstMatches(slots[1..], wanted);
    }
  }

  /** Entries depend only on the slots listed. */
  lemma {:induction false} EntriesFrame<K, V>(slots: seq<nat>, t: seq<Slot<K, V>>, t': seq<Slot<K, V>>)
    requires AllUsed(slots, t) && |t| == |t'|
    requires forall i :: 0 <= i < |slots| ==> t'[slots[i]] == t[slots[i]]
    ensures AllUsed(slots, t') && EntriesOf(slots, t') == EntriesOf(slots, t)
  {
    if slots != [] {
      EntriesFrame(slots[1..], t, t');
    }
  }

  lemma {:induction false} EntriesAppend<K, V>(slots: seq<nat>, table: seq<Slot<K, V>>, s: nat)
    requires AllUsed(slots, table) && s < |table| && table[s].Used?
    ensures AllUsed(slots + [s], table)
    ensures EntriesOf(slots + [s], table) == EntriesOf(slots, table) + [Entry(table[s].key, table[s].value)]
  {
    if slots == [] {
      assert slots + [s] == [s];
    } else {
      EntriesAppend(slots[1..], table, s);
      assert (slots + [s])[1..] == slots[1..] + [s];
    }
  }

  /** The cells carry the given data. */
  ghost predicate Carries(mem: map<nat, Cell<nat>>, cells: seq<nat>, data: seq<nat>) {
    |cells| == |data| && forall i :: 0 <= i < |cells| ==> cells[i] in mem && mem[cells[i]].data == data[i]
  }

  /**
   Entries for a key are in its bucket, so its first match is the first of all; and all slots of a
   bucket are in use.
   */
  lemma FirstInBucket<K(!new), V>(slots: seq<nat>, table: seq<Slot<K, V>>, equals: (K, K) -> bool, hash: K -> nat,
                                  key: K, b: nat)
    requires AllUsed(slots, table) && |table| > 0 && b == hash(key) % |table|
    requires forall a, c :: equals(a, c) ==> hash(a) == hash(c)
    ensures FirstSlot(Filter(slots, Home(table, hash, b)), table, equals, key) == FirstSlot(slots, table, equals, key)
    ensures AllUsed(Filter(slots, Home(table, hash, b)), table)
  {
    FirstOfFilter(slots, Matches(table, equals, key), Home(table, hash, b));
    FilterMembers(slots, Home(table, hash, b));
    var mine := Filter(slots, Home(table, hash, b));
    forall i | 0 <= i < |mine| ensures mine[i] < |table| && table[mine[i]].Used? {
      assert mine[i] in mine;
    }
  }

  /** The place of the first slot for the key. */
  lemma SlotPlace<K, V>(slots: seq<nat>, table: seq<Slot<K, V>>, equals: (K, K) -> bool, key: K) returns (k: nat)
    requires Distinct(slots) && FirstSlot(slots, table, equals, key).Some?
    ensures k < |slots| && slots[k] == FirstSlot(slots, table, equals, key).value
    ensures Drop(slots, slots[k]) == Cut(slots, k)
  {
    FirstMatches(slots, Matches(table, equals, key));
    k :| 0 <= k < |slots| && slots[k] == FirstSlot(slots, table, equals, key).value;
    DropIsCut(slots, k);
  }

  /** Walks along a non-empty chain up to the first entry for the key. */
  method WalkChain<K, V>(first: nat, chains: map<nat, Cell<nat>>, table: seq<Slot<K, V>>, equals: (K, K) -> bool,
                         key: K, ghost cells: seq<nat>, ghost mine: seq<nat>)
    returns (found: bool, currentChain: nat, currentNode: nat, ghost j: nat)
    requires cells != [] && first == cells[0] && (forall i :: 0 <= i < |cells| ==> CellOk(chains, cells, i))
    requires Carries(chains, cells, mine) && AllUsed(mine, table)
    ensures found == FirstSlot(mine, table, equals, key).Some?
    ensures found ==> FirstSlot(mine, table, equals, key) == Some(currentNode)
    ensures found ==> j < |cells| && cells[j] == currentChain && mine[j] == currentNode
  {
    ghost var wanted := Matches(table, equals, key);
    currentChain := first;
    assert CellOk(chains, cells, 0);
    currentNode := chains[currentChain].data;
    j := 0;
    while !equals(key, table[currentNode].key) && currentChain != 0
      invariant j < |cells| && currentNode == mine[j]
      invariant currentChain == cells[j] || (currentChain == 0 && j == |cells| - 1 && !wanted(mine[j]))
      invariant forall i :: 0 <= i < j ==> !wanted(mine[i])
      decreases |cells| - j, currentChain
    {
      assert CellOk(chains, cells, j);
      assert j + 1 < |cells| ==> CellOk(chains, cells, j + 1);
      currentChain := chains[currentChain].next;
      if currentChain != 0 {
        currentNode := chains[currentChain].data;
        j := j + 1;
      }
    }
    assert CellOk(chains, cells, j);
    found := equals(key, table[currentNode].key);
    FirstAfter(mine, wanted, if found then j else j + 1);
    assert !found ==> mine[j + 1..] == [];
  }

  /** A bucket's chain runs through `cells` and names the slots `mine`. */
  ghost predicate BucketHolds(chains: map<nat, Cell<nat>>, bucket: Bucket, cells: seq<nat>, mine: seq<nat>) {
    Linked(chains, bucket.ends, cells) && bucket.nChains == |cells| && Carries(chains, cells, mine)
  }

  lemma BucketFrame(chains: map<nat, Cell<nat>>, chains': map<nat, Cell<nat>>, bucket: Bucket, cells: seq<nat>,
                    mine: seq<nat>)
    requires BucketHolds(chains, bucket, cells, mine)
    requires forall i :: 0 <= i < |cells| ==> Same(chains, chains', cells[i])
    ensures BucketHolds(chains', bucket, cells, mine)
  {
    LinkedFrame(chains, chains', bucket.ends, cells);
    forall i | 0 <= i < |cells| ensures cells[i] in chains' && chains'[cells[i]].data == mine[i] {
      assert Same(chains, chains', cells[i]);
    }
  }

  /** A slot that comes into use joins the bucket of its key and no other. */
  lemma FilterEmplaced<K, V>(slots: seq<nat>, table: seq<Slot<K, V>>, s: nat, slot: Slot<K, V>, hash: K -> nat, c: nat)
    requires AllUsed(slots, table) && s < |table| && table[s].Free? && slot.Used?
    ensures var table' := table[s := slot];
      Filter(slots + [s], Home(table', hash, c))
        == if hash(slot.key) % |table| == c then Filter(slots, Home(table, hash, c)) + [s]
           else Filter(slots, Home(table, hash, c))
  {
    var table' := table[s := slot];
    FilterAppend(slots, s, Home(table', hash, c));
    FilterSame(slots, Home(table, hash, c), Home(table', hash, c));
  }

  /** Taking a slot out of the list takes it out of the selection; `j` is its place there. */
  lemma FilterCut(slots: seq<nat>, home: nat -> bool, k: nat, j: nat)
    requires Distinct(slots) && k < |slots|
    requires home(slots[k]) ==> j < |Filter(slots, home)| && Filter(slots, home)[j] == slots[k]
    ensures Filter(Cut(slots, k), home) == if home(slots[k]) then Cut(Filter(slots, home), j) else Filter(slots, home)
  {
    FilterDrop(slots, home, slots[k]);
    DropIsCut(slots, k);
    if home(slots[k]) {
      FilterDistinct(slots, home);
      DropIsCut(Filter(slots, home), j);
    }
  }

  /** A slot that is freed leaves the bucket of its key. */
  lemma FilterRemoved<K, V>(slots: seq<nat>, table: seq<Slot<K, V>>, k: nat, hash: K -> nat, c: nat, j: nat)
    requires AllUsed(slots, table) && Distinct(slots) && k < |slots|
    requires var mine := Filter(slots, Home(table, hash, c));
      Home(table, hash, c)(slots[k]) ==> j < |mine| && mine[j] == slots[k]
    ensures var mine := Filter(slots, Home(table, hash, c));
      Filter(Cut(slots, k), Home(table[slots[k] := Free], hash, c))
        == if Home(table, hash, c)(slots[k]) then Cut(mine, j) else mine
  {
    FilterCut(slots, Home(table, hash, c), k, j);
    DistinctCut(slots, k);
    FilterSame(Cut(slots, k), Home(table, hash, c), Home(table[slots[k] := Free], hash, c));
  }

  lemma {:induction false} CoversLong(slots: seq<nat>, n: nat)
    requires forall s: nat :: s < n ==> s in slots
    ensures |slots| >= n
    decreases n
  {
    if n > 0 {
      DropKeeps(slots, n - 1);
      CoversLong(Drop(slots, n - 1), n - 1);
    }
  }

  lemma {:induction false} DropKeeps(slots: seq<nat>, x: nat)
    requires x in slots
    ensures |Drop(slots, x)| == |slots| - 1 && forall s :: s in slots && s != x ==> s in Drop(slots, x)
  {
    if slots[0] != x {
      DropKeeps(slots[1..], x);
    }
  }

  // ----- the invariant, part by part

  /** The listed slots are exactly those in use. */
  ghost predicate SlotsOk<K, V>(table: seq<Slot<K, V>>, slots: seq<nat>) {
    AllUsed(slots, table) && Distinct(slots) && forall s :: 0 <= s < |table| && table[s].Used? ==> s in slots
  }

  /** The insertion list runs through `order`, names the slots, and each slot points back at its cell. */
  ghost predicate OrderOk<K, V>(table: seq<Slot<K, V>>, nodes: map<nat, Cell<nat>>, list: Ends, order: seq<nat>,
                                slots: seq<nat>)
    requires AllUsed(slots, table)
  {
    && Linked(nodes, list, order) && Carries(nodes, order, slots)
    && forall i :: 0 <= i < |slots| ==> table[slots[i]].node == order[i]
  }

  ghost predicate Disjoint(s: seq<nat>, t: seq<nat>) {
    forall x :: x in s ==> x !in t
  }

  /** No chain cell is in two buckets. */
  ghost predicate Apart(chainCells: seq<seq<nat>>) {
    forall b, c :: 0 <= b < |chainCells| && 0 <= c < |chainCells| && b != c ==> Disjoint(chainCells[b], chainCells[c])
  }

  /** With fewer entries than slots some slot is free. */
  lemma FreeSlot<K, V>(table: seq<Slot<K, V>>, slots: seq<nat>)
    requires SlotsOk(table, slots) && |slots| < |table|
    ensures exists s :: 0 <= s < |table| && table[s].Free?
  {
    if forall s :: 0 <= s < |table| ==> table[s].Used? {
      CoversLong(slots, |table|);
    }
  }

  lemma SlotsEmplaced<K, V>(table: seq<Slot<K, V>>, slots: seq<nat>, s: nat, slot: Slot<K, V>)
    requires SlotsOk(table, slots) && s < |table| && table[s].Free? && slot.Used?
    ensures SlotsOk(table[s := slot], slots + [s])
    ensures EntriesOf(slots + [s], table[s := slot]) == EntriesOf(slots, table) + [Entry(slot.key, slot.value)]
  {
    EntriesFrame(slots, table, table[s := slot]);
    EntriesAppend(slots, table[s := slot], s);
    DistinctAppend(slots, s);
  }

  lemma OrderEmplaced<K, V>(table: seq<Slot<K, V>>, nodes: map<nat, Cell<nat>>, list: Ends, order: seq<nat>,
                            slots: seq<nat>, s: nat, slot: Slot<K, V>, nodes': map<nat, Cell<nat>>, list': Ends)
    requires SlotsOk(table, slots) && OrderOk(table, nodes, list, order, slots)
    requires s < |table| && table[s].Free? && slot.Used? && slot.node !in nodes
    requires Linked(nodes', list', order + [slot.node]) && nodes'.Keys == nodes.Keys + {slot.node}
    requires forall b :: b in nodes' ==> nodes'[b] == AppendedAt(nodes, list.last, slot.node, s, b)
    ensures SlotsOk(table[s := slot], slots + [s])
    ensures OrderOk(table[s := slot], nodes', list', order + [slot.node], slots + [s])
  {
    SlotsEmplaced(table, slots, s, slot);
  }

  lemma CarriesAppended(mem: map<nat, Cell<nat>>, last: nat, cells: seq<nat>, data: seq<nat>,
                        mem': map<nat, Cell<nat>>, a: nat, s: nat)
    requires Carries(mem, cells, data) && a !in mem && mem'.Keys == mem.Keys + {a}
    requires forall b :: b in mem' ==> mem'[b] == AppendedAt(mem, last, a, s, b)
    ensures Carries(mem', cells + [a], data + [s])
  {
  }

  /** An append to another bucket does not concern this one. */
  lemma AppendElsewhere(chains: map<nat, Cell<nat>>, chains': map<nat, Cell<nat>>, bucket: Bucket, cells: seq<nat>,
                        mine: seq<nat>, last: nat, a: nat, s: nat)
    requires BucketHolds(chains, bucket, cells, mine) && a !in chains && chains'.Keys == chains.Keys + {a}
    requires forall b :: b in chains' ==> chains'[b] == AppendedAt(chains, last, a, s, b)
    requires last != 0 ==> last !in cells
    ensures BucketHolds(chains', bucket, cells, mine)
  {
    forall i | 0 <= i < |cells| ensures Same(chains, chains', cells[i]) {
      assert CellOk(chains, cells, i);
    }
    BucketFrame(chains, chains', bucket, cells, mine);
  }

  lemma ApartEmplaced(chainCells: seq<seq<nat>>, b: nat, a: nat)
    requires Apart(chainCells) && b < |chainCells|
    requires forall c :: 0 <= c < |chainCells| ==> a !in chainCells[c]
    ensures Apart(chainCells[b := chainCells[b] + [a]])
  {
    var after := chainCells[b := chainCells[b] + [a]];
    forall c, d | 0 <= c < |after| && 0 <= d < |after| && c != d ensures Disjoint(after[c], after[d]) {
      assert Disjoint(chainCells[c], chainCells[d]);
    }
  }

  lemma ApartRemoved(chainCells: seq<seq<nat>>, b: nat, j: nat)
    requires Apart(chainCells) && b < |chainCells| && j < |chainCells[b]|
    ensures Apart(chainCells[b := Cut(chainCells[b], j)])
  {
    var after := chainCells[b := Cut(chainCells[b], j)];
    forall c, d | 0 <= c < |after| && 0 <= d < |after| && c != d ensures Disjoint(after[c], after[d]) {
      assert Disjoint(chainCells[c], chainCells[d]);
    }
  }

  lemma SlotsRemoved<K, V>(table: seq<Slot<K, V>>, slots: seq<nat>, k: nat)
    requires SlotsOk(table, slots) && k < |slots|
    ensures SlotsOk(table[slots[k] := Free], Cut(slots, k))
    ensures AllUsed(Cut(slots, k), table)
    ensures EntriesOf(Cut(slots, k), table[slots[k] := Free]) == EntriesOf(Cut(slots, k), table)
  {
    DistinctCut(slots, k);
    EntriesFrame(Cut(slots, k), table, table[slots[k] := Free]);
    forall s | 0 <= s < |table| && table[slots[k] := Free][s].Used? ensures s in Cut(slots, k) {
      assert s in slots;
      var i :| 0 <= i < |slots| && slots[i] == s;
      assert Cut(slots, k)[if i < k then i else i - 1] == s;
    }
  }

  lemma OrderRemoved<K, V>(table: seq<Slot<K, V>>, nodes: map<nat, Cell<nat>>, list: Ends, order: seq<nat>,
                           slots: seq<nat>, k: nat, nodes': map<nat, Cell<nat>>, list': Ends)
    requires SlotsOk(table, slots) && OrderOk(table, nodes, list, order, slots) && k < |slots|
    requires Linked(nodes', list', Cut(order, k)) && nodes'.Keys == nodes.Keys
    requires forall b :: b in nodes ==> nodes'[b].data == nodes[b].data
    ensures SlotsOk(table[slots[k] := Free], Cut(slots, k))
    ensures OrderOk(table[slots[k] := Free], nodes', list', Cut(order, k), Cut(slots, k))
  {
    SlotsRemoved(table, slots, k);
    DistinctCut(slots, k);
  }

  /** The bucket that lost the cell at index `j`, once that cell is freed. */
  lemma BucketCut(chains: map<nat, Cell<nat>>, chains': map<nat, Cell<nat>>, ends': Ends, bucket: Bucket,
                  cells: seq<nat>, mine: seq<nat>, j: nat)
    requires BucketHolds(chains, bucket, cells, mine) && j < |cells| && chains'.Keys == chains.Keys
    requires Linked(chains', ends', Cut(cells, j))
    requires forall b :: b in chains ==> chains'[b].data == chains[b].data
    ensures BucketHolds(chains' - {cells[j]}, Bucket(ends', |cells| - 1), Cut(cells, j), Cut(mine, j))
  {
    DistinctCut(cells, j);
    forall i | 0 <= i < |Cut(cells, j)| ensures Same(chains', chains' - {cells[j]}, Cut(cells, j)[i]) {
    }
    LinkedFrame(chains', chains' - {cells[j]}, ends', Cut(cells, j));
  }

  /** A removal from another bucket does not concern this one. */
  lemma UnlinkElsewhere(chains: map<nat, Cell<nat>>, chains': map<nat, Cell<nat>>, bucket: Bucket, cells: seq<nat>,
                        mine: seq<nat>, a: nat)
    requires BucketHolds(chains, bucket, cells, mine) && a in chains && a !in cells && chains'.Keys == chains.Keys
    requires forall b :: b in chains ==> chains'[b] == UnlinkedAt(chains, chains[a], b)
    requires chains[a].next !in cells && chains[a].prev !in cells
    ensures BucketHolds(chains' - {a}, bucket, cells, mine)
  {
    forall i | 0 <= i < |cells| ensures Same(chains, chains' - {a}, cells[i]) {
      assert CellOk(chains, cells, i);
    }
    BucketFrame(chains, chains' - {a}, bucket, cells, mine);
  }

  /** The buckets with the slots they index. */
  datatype Index<+K, +V> = Index(
    chains: map<nat, Cell<nat>>,
    buckets: seq<Bucket>,
    chainCells: seq<seq<nat>>,
    table: seq<Slot<K, V>>,
    slots: seq<nat>)

  ghost predicate BucketOk<K, V>(x: Index<K, V>, hash: K -> nat, b: nat)
    requires b < |x.buckets| == |x.chainCells|
  {
    BucketHolds(x.chains, x.buckets[b], x.chainCells[b], Filter(x.slots, Home(x.table, hash, b)))
  }

  /** Every bucket's chain names exactly the slots with keys of that bucket, oldest first. */
  ghost predicate IndexOk<K, V>(x: Index<K, V>, hash: K -> nat) {
    && |x.buckets| == |x.chainCells| == |x.table|
    && (forall b :: 0 <= b < |x.buckets| ==> BucketOk(x, hash, b))
    && Apart(x.chainCells)
  }

  /** After an append to bucket `b` every bucket holds what it should. */
  lemma IndexEmplaced<K, V>(x: Index<K, V>, x': Index<K, V>, hash: K -> nat, b: nat, a: nat, s: nat, slot: Slot<K, V>)
    requires IndexOk(x, hash) && AllUsed(x.slots, x.table) && b < |x.buckets| && s < |x.table| && a !in x.chains
    requires x.table[s].Free? && slot.Used? && b == hash(slot.key) % |x.table|
    requires x'.table == x.table[s := slot] && x'.slots == x.slots + [s]
    requires x'.chains.Keys == x.chains.Keys + {a}
    requires forall y :: y in x'.chains ==> x'.chains[y] == AppendedAt(x.chains, x.buckets[b].ends.last, a, s, y)
    requires x'.chainCells == x.chainCells[b := x.chainCells[b] + [a]]
    requires |x'.buckets| == |x.buckets|
    requires x'.buckets == x.buckets[b := Bucket(x'.buckets[b].ends, x.buckets[b].nChains + 1)]
    requires Linked(x'.chains, x'.buckets[b].ends, x'.chainCells[b])
    ensures IndexOk(x', hash)
  {
    var last := x.buckets[b].ends.last;
    assert BucketOk(x, hash, b);
    forall c | 0 <= c < |x'.buckets| ensures BucketOk(x', hash, c) {
      assert BucketOk(x, hash, c);
      FilterEmplaced(x.slots, x.table, s, slot, hash, c);
      var mine := Filter(x.slots, Home(x.table, hash, c));
      if c == b {
        CarriesAppended(x.chains, last, x.chainCells[b], mine, x'.chains, a, s);
      } else {
        assert Disjoint(x.chainCells[b], x.chainCells[c]);
        AppendElsewhere(x.chains, x'.chains, x.buckets[c], x.chainCells[c], mine, last, a, s);
      }
    }
    forall c | 0 <= c < |x.chainCells| ensures a !in x.chainCells[c] {
      assert BucketOk(x, hash, c);
      forall i | 0 <= i < |x.chainCells[c]| ensures x.chainCells[c][i] != a {
        assert CellOk(x.chains, x.chainCells[c], i);
      }
    }
    ApartEmplaced(x.chainCells, b, a);
  }

  /** After a removal from bucket `b` every bucket holds what it should. */
  lemma IndexRemoved<K, V>(x: Index<K, V>, x': Index<K, V>, hash: K -> nat, b: nat, j: nat, k: nat,
                           unlinked: map<nat, Cell<nat>>)
    requires IndexOk(x, hash) && AllUsed(x.slots, x.table) && Distinct(x.slots) && b < |x.buckets| && k < |x.slots|
    requires j < |x.chainCells[b]| == |Filter(x.slots, Home(x.table, hash, b))|
    requires Home(x.table, hash, b)(x.slots[k]) && Filter(x.slots, Home(x.table, hash, b))[j] == x.slots[k]
    requires x'.table == x.table[x.slots[k] := Free] && x'.slots == Cut(x.slots, k)
    requires x.chainCells[b][j] in x.chains && unlinked.Keys == x.chains.Keys
    requires forall y :: y in x.chains ==> unlinked[y] == UnlinkedAt(x.chains, x.chains[x.chainCells[b][j]], y)
    requires |x'.buckets| == |x.buckets|
    requires Linked(unlinked, x'.buckets[b].ends, Cut(x.chainCells[b], j))
    requires x'.chains == unlinked - {x.chainCells[b][j]}
    requires x'.chainCells == x.chainCells[b := Cut(x.chainCells[b], j)]
    requires x'.buckets == x.buckets[b := Bucket(x'.buckets[b].ends, |x.chainCells[b]| - 1)]
    ensures IndexOk(x', hash)
  {
    assert BucketOk(x, hash, b);
    forall c | 0 <= c < |x'.buckets| ensures BucketOk(x', hash, c) {
      assert BucketOk(x, hash, c);
      FilterRemoved(x.slots, x.table, k, hash, c, j);
      var mine := Filter(x.slots, Home(x.table, hash, c));
      if c == b {
        BucketCut(x.chains, unlinked, x'.buckets[b].ends, x.buckets[b], x.chainCells[b], mine, j);
      } else {
        NotNeighbours(x.chains, x.chainCells, b, j, c);
        UnlinkElsewhere(x.chains, unlinked, x.buckets[c], x.chainCells[c], mine, x.chainCells[b][j]);
      }
    }
    ApartRemoved(x.chainCells, b, j);
  }

  class Hashmap<K(!new), V> {
    const capacity: nat
    const equals: (K, K) -> bool
    const hash: K -> nat
    var chains: map<nat, Cell<nat>> // chain cells by address; the data is a slot index
    var buckets: seq<Bucket>
    var table: seq<Slot<K, V>>
    var nodes: map<nat, Cell<nat>>  // insertion-list cells by address
    var list: Ends
    var nNodes: int
    ghost var chainCells: seq<seq<nat>>
    ghost var order: seq<nat>
    ghost var slots: seq<nat>

    ghost function IndexNow(): Index<K, V>
      reads this
    {
      Index(chains, buckets, chainCells, table, slots)
    }

    /** Slots, insertion-list cells and chain cells correspond one to one. */
    ghost predicate Valid()
      reads this
    {
      && |buckets| == |table| == |chainCells| == capacity
      && (forall a, b :: equals(a, b) ==> hash(a) == hash(b))
      && SlotsOk(table, slots)
      && OrderOk(table, nodes, list, order, slots)
      && IndexOk(IndexNow(), hash)
    }

    ghost function Entries(): seq<Entry<K, V>>
      requires Valid()
      reads this
    {
      EntriesOf(slots, table)
    }

    constructor (capacity: nat, equals: (K, K) -> bool, hash: K -> nat, uninitialised: int)
      requires forall a, b :: equals(a, b) ==> hash(a) == hash(b)
      ensures Valid() && Entries() == [] && this.capacity == capacity && nNodes == uninitialised
    {
      this.capacity := capacity;
      this.equals := equals;
      this.hash := hash;
      chains, nodes, list, nNodes := map[], map[], Ends(0, 0), uninitialised;
      buckets := seq(capacity, _ => Bucket(Ends(0, 0), 0));
      table := seq(capacity, _ => Free);
      chainCells, order, slots := seq(capacity, _ => []), [], [];
    }

    /** The search that `at` and `remove` share: the chain cell and slot of the oldest entry for the key. */
    method Find(key: K) returns (found: bool, b: nat, currentChain: nat, currentNode: nat, ghost j: nat)
      requires Valid()
      ensures found == FirstSlot(slots, table, equals, key).Some?
      ensures found ==> FirstSlot(slots, table, equals, key) == Some(currentNode)
      ensures found ==> b < capacity && j < |chainCells[b]| && chainCells[b][j] == currentChain
      ensures found ==> Home(table, hash, b)(currentNode) && |chainCells[b]| == |Filter(slots, Home(table, hash, b))|
      ensures found ==> Filter(slots, Home(table, hash, b))[j] == currentNode
    {
      found, b, currentChain, currentNode, j := false, 0, 0, 0, 0;
      if capacity == 0 {
        assert slots == [];
        return;
      }
      b := hash(key) % capacity;
      ghost var mine := Filter(slots, Home(table, hash, b));
      assert BucketOk(IndexNow(), hash, b);
      FirstInBucket(slots, table, equals, hash, key, b);
      if buckets[b].nChains == 0 {
        assert mine == [];
        return;
      }
      found, currentChain, currentNode, j :=
        WalkChain(buckets[b].ends.first, chains, table, equals, key, chainCells[b], mine);
      FilterMembers(slots, Home(table, hash, b));
      assert found ==> mine[j] in mine;
    }

    method At(key: K) returns (r: Option<V>)
      requires Valid()
      ensures r == Lookup(Entries(), equals, key)
    {
      var found, _, _, n, _ := Find(key);
      LookupIsFirst(slots, table, equals, key);
      r := if found then Some(table[n].value) else None;
    }

    method Contains(key: K) returns (r: bool)
      requires Valid()
      ensures r == Lookup(Entries(), equals, key).Some?
    {
      var v := At(key);
      r := v.Some?;
    }

    /** The index of a free slot. */
    method FindFreeSlot() returns (ourIndex: nat)
      requires Valid() && |Entries()| < capacity
      ensures ourIndex < capacity && table[ourIndex].Free?
    {
      FreeSlot(table, slots);
      ourIndex := 0;
      var i := 0;
      while i < capacity
        invariant 0 <= i <= capacity && (ourIndex == 0 || ourIndex < i)
        invariant forall s :: 0 <= s < i ==> table[s].Used?
      {
        if table[i].Free? {
          ourIndex := i;
          break;
        }
        i := i + 1;
      }
    }

    /** Adds an entry; `chainAddr` and `nodeAddr` are the addresses of the two cells allocated for it. */
    method EmplaceAt(key: K, value: V, chainAddr: nat, nodeAddr: nat)
      requires Valid() && |Entries()| < capacity
      requires chainAddr != 0 && chainAddr !in chains && nodeAddr != 0 && nodeAddr !in nodes
      modifies this
      ensures Valid() && Entries() == old(Entries()) + [Entry(key, value)]
      ensures nNodes == old(nNodes) + 1
      ensures chains.Keys == old(chains.Keys) + {chainAddr} && nodes.Keys == old(nodes.Keys) + {nodeAddr}
    {
      var ourIndex := FindFreeSlot();
      var b := hash(key) % capacity;
      var slot := Used(key, value, nodeAddr);
      LinkChain(b, chainAddr, ourIndex, slot);
      LinkNode(nodeAddr, ourIndex, slot);
      table, slots := table[ourIndex := slot], slots + [ourIndex];
    }

    /** Appends a chain cell to bucket `b`; the index is right once the slot is filled. */
    method LinkChain(b: nat, chainAddr: nat, ourIndex: nat, slot: Slot<K, V>)
      requires IndexOk(IndexNow(), hash) && AllUsed(slots, table)
      requires b < |buckets| && ourIndex < |table| && table[ourIndex].Free? && slot.Used?
      requires b == hash(slot.key) % |table|
      requires chainAddr != 0 && chainAddr !in chains
      modifies this`chains, this`buckets, this`chainCells
      ensures IndexOk(Index(chains, buckets, chainCells, table[ourIndex := slot], slots + [ourIndex]), hash)
      ensures chains.Keys == old(chains.Keys) + {chainAddr}
    {
      ghost var x := IndexNow();
      assert BucketOk(x, hash, b);
      var chains', ends := Append(chains, buckets[b].ends, chainAddr, ourIndex, chainCells[b]);
      chains := chains';
      buckets := buckets[b := Bucket(ends, buckets[b].nChains + 1)];
      chainCells := chainCells[b := chainCells[b] + [chainAddr]];
      IndexEmplaced(x, Index(chains, buckets, chainCells, table[ourIndex := slot], slots + [ourIndex]), hash,
                    b, chainAddr, ourIndex, slot);
    }

    /** Appends a cell to the insertion list; the list is right once the slot is filled. */
    method LinkNode(nodeAddr: nat, ourIndex: nat, slot: Slot<K, V>)
      requires SlotsOk(table, slots) && OrderOk(table, nodes, list, order, slots)
      requires ourIndex < |table| && table[ourIndex].Free? && slot.Used? && slot.node == nodeAddr
      requires nodeAddr != 0 && nodeAddr !in nodes
      modifies this`nodes, this`list, this`nNodes, this`order
      ensures SlotsOk(table[ourIndex := slot], slots + [ourIndex])
      ensures OrderOk(table[ourIndex := slot], nodes, list, order, slots + [ourIndex])
      ensures EntriesOf(slots + [ourIndex], table[ourIndex := slot]) ==
        EntriesOf(slots, table) + [Entry(slot.key, slot.value)]
      ensures nNodes == old(nNodes) + 1 && nodes.Keys == old(nodes.Keys) + {nodeAddr}
    {
      var nodes', list' := Append(nodes, list, nodeAddr, ourIndex, order);
      SlotsEmplaced(table, slots, ourIndex, slot);
      OrderEmplaced(table, nodes, list, order, slots, ourIndex, slot, nodes', list');
      nodes, list, order := nodes', list', order + [nodeAddr];
      nNodes := nNodes + 1;
    }

    /** Removes the oldest entry for the key, if any. */
    method Remove(key: K)
      requires Valid()
      modifies this
      ensures Valid() && Entries() == RemoveFirst(old(Entries()), equals, key)
      ensures nNodes == old(nNodes) - (|old(Entries())| - |Entries()|)
      ensures chains.Keys <= old(chains.Keys) && nodes.Keys == old(nodes.Keys)
    {
      RemoveIsDrop(slots, table, equals, key);
      var found, b, currentChain, s, j := Find(key);
      if !found {
        return;
      }
      ghost var k := SlotPlace(slots, table, equals, key);
      RemoveAt(b, currentChain, s, j, k);
    }

    /** Unlinks both cells of an entry and frees its slot. */
    method RemoveAt(b: nat, currentChain: nat, s: nat, ghost j: nat, ghost k: nat)
      requires Valid() && b < capacity && k < |slots| && slots[k] == s
      requires j < |chainCells[b]| == |Filter(slots, Home(table, hash, b))| && chainCells[b][j] == currentChain
      requires Home(table, hash, b)(s) && Filter(slots, Home(table, hash, b))[j] == s
      modifies this
      ensures Valid() && AllUsed(Cut(old(slots), k), old(table))
      ensures Entries() == EntriesOf(Cut(old(slots), k), old(table))
      ensures nNodes == old(nNodes) - 1
      ensures chains.Keys <= old(chains.Keys) && nodes.Keys == old(nodes.Keys)
    {
      UnlinkChain(b, currentChain, j, k);
      UnlinkNode(table[s].node, k);
      ReleaseSlot(s, k);
    }

    /** Frees a slot whose cells have been unlinked. */
    method ReleaseSlot(s: nat, ghost k: nat)
      requires |buckets| == |table| == |chainCells| == capacity && forall a, b :: equals(a, b) ==> hash(a) == hash(b)
      requires SlotsOk(table, slots) && k < |slots| && slots[k] == s && SlotsOk(table[s := Free], Cut(slots, k))
      requires OrderOk(table[s := Free], nodes, list, order, Cut(slots, k))
      requires IndexOk(Index(chains, buckets, chainCells, table[s := Free], Cut(slots, k)), hash)
      modifies this`table, this`slots
      ensures Valid() && AllUsed(Cut(old(slots), k), old(table))
      ensures Entries() == EntriesOf(Cut(old(slots), k), old(table))
    {
      SlotsRemoved(table, slots, k);
      table, slots := table[s := Free], Cut(slots, k);
    }

    /** Takes a chain cell out of bucket `b` and frees it; the index is right once the slot is freed. */
    method UnlinkChain(b: nat, currentChain: nat, ghost j: nat, ghost k: nat)
      requires IndexOk(IndexNow(), hash) && SlotsOk(table, slots) && b < |buckets| && k < |slots|
      requires j < |chainCells[b]| == |Filter(slots, Home(table, hash, b))| && chainCells[b][j] == currentChain
      requires Home(table, hash, b)(slots[k]) && Filter(slots, Home(table, hash, b))[j] == slots[k]
      modifies this`chains, this`buckets, this`chainCells
      ensures IndexOk(Index(chains, buckets, chainCells, table[slots[k] := Free], Cut(slots, k)), hash)
      ensures chains.Keys <= old(chains.Keys)
    {
      ghost var x := IndexNow();
      assert BucketOk(x, hash, b) && CellOk(chains, chainCells[b], j);
      var unlinked, ends := Unlink(chains, buckets[b].ends, currentChain, chainCells[b], j);
      chains := unlinked - {currentChain};
      buckets := buckets[b := Bucket(ends, buckets[b].nChains - 1)];
      chainCells := chainCells[b := Cut(chainCells[b], j)];
      IndexRemoved(x, Index(chains, buckets, chainCells, table[slots[k] := Free], Cut(slots, k)), hash, b, j, k,
        unlinked);
    }

    /** Takes a cell out of the insertion list; the list is right once the slot is freed. */
    method UnlinkNode(node: nat, ghost k: nat)
      requires SlotsOk(table, slots) && OrderOk(table, nodes, list, order, slots) && k < |slots| && order[k] == node
      modifies this`nodes, this`list, this`nNodes, this`order
      ensures SlotsOk(table[slots[k] := Free], Cut(slots, k))
      ensures OrderOk(table[slots[k] := Free], nodes, list, order, Cut(slots, k))
      ensures EntriesOf(Cut(slots, k), table[slots[k] := Free]) == EntriesOf(Cut(slots, k), table)
      ensures nNodes == old(nNodes) - 1 && nodes.Keys == old(nodes.Keys)
    {
      assert CellOk(nodes, order, k);
      var nodes', list' := Unlink(nodes, list, node, order, k);
      SlotsRemoved(table, slots, k);
      OrderRemoved(table, nodes, list, order, slots, k, nodes', list');
      nodes, list, order := nodes', list', Cut(order, k);
      nNodes := nNodes - 1;
    }
  }

  /** A chain cell and its neighbours are in no other bucket. */
  lemma NotNeighbours(chains: map<nat, Cell<nat>>, chainCells: seq<seq<nat>>, b: nat, j: nat, c: nat)
    requires Apart(chainCells) && b < |chainCells| && c < |chainCells| && b != c && j < |chainCells[b]|
    requires forall i :: 0 <= i < |chainCells[b]| ==> CellOk(chains, chainCells[b], i)
    requires forall i :: 0 <= i < |chainCells[c]| ==> CellOk(chains, chainCells[c], i)
    ensures var a := chainCells[b][j];
      a !in chainCells[c] && a in chains && chains[a].next !in chainCells[c] && chains[a].prev !in chainCells[c]
  {
    assert CellOk(chains, chainCells[b], j);
    assert Disjoint(chainCells[b], chainCells[c]);
    var a := chainCells[b][j];
    assert a in chainCells[b];
    forall y | y in chainCells[c] ensures y != chains[a].next && y != chains[a].prev {
      var i :| 0 <= i < |chainCells[c]| && chainCells[c][i] == y;
      assert CellOk(chains, chainCells[c], i);
      if j + 1 < |chainCells[b]| { assert chainCells[b][j + 1] in chainCells[b]; }
      if j > 0 { assert chainCells[b][j - 1] in chainCells[b]; }
    }
  }

  // ----- runs

  datatype Op<+K, +V> = Put(key: K, value: V) | Delete(key: K) | Get(key: K)

  /** What an operation makes of the association list. */
  function Applied<K, V>(entries: seq<Entry<K, V>>, equals: (K, K) -> bool, op: Op<K, V>): seq<Entry<K, V>> {
    match op
    case Put(key, value) => entries + [Entry(key, value)]
    case Delete(key) => RemoveFirst(entries, equals, key)
    case Get(_) => entries
  }

  function AppliedAll<K, V>(entries: seq<Entry<K, V>>, equals: (K, K) -> bool, ops: seq<Op<K, V>>): seq<Entry<K, V>> {
    if ops == [] then entries
    else Applied(AppliedAll(entries, equals, ops[..|ops| - 1]), equals, ops[|ops| - 1])
  }

  /** The answers of the Get operations. */
  function Answers<K, V>(entries: seq<Entry<K, V>>, equals: (K, K) -> bool, ops: seq<Op<K, V>>): seq<Option<V>> {
    if ops == [] then []
    else
      var n := |ops| - 1;
      var before := Answers(entries, equals, ops[..n]);
      if ops[n].Get? then before + [Lookup(AppliedAll(entries, equals, ops[..n]), equals, ops[n].key)] else before
  }

  /** No Put meets a full table. */
  predicate WithinCapacity<K, V>(entries: seq<Entry<K, V>>, equals: (K, K) -> bool, ops: seq<Op<K, V>>, capacity: nat) {
    forall n :: 0 <= n < |ops| && ops[n].Put? ==> |AppliedAll(entries, equals, ops[..n])| < capacity
  }

  method RunOp<K(!new), V>(m: Hashmap<K, V>, op: Op<K, V>) returns (answer: Option<V>)
    requires m.Valid() && (op.Put? ==> |m.Entries()| < m.capacity)
    modifies m
    ensures m.Valid() && m.Entries() == Applied(old(m.Entries()), m.equals, op)
    ensures op.Get? ==> answer == Lookup(old(m.Entries()), m.equals, op.key)
  {
    answer := None;
    match op {
      case Put(key, value) =>
        var chainAddr := FreshAddress(m.chains);
        var nodeAddr := FreshAddress(m.nodes);
        m.EmplaceAt(key, value, chainAddr, nodeAddr);
      case Delete(key) =>
        m.Remove(key);
      case Get(key) =>
        answer := m.At(key);
    }
  }

  /** Any sequence of operations within capacity behaves as on the association list. */
  method RunOps<K(!new), V>(m: Hashmap<K, V>, ops: seq<Op<K, V>>) returns (answers: seq<Option<V>>)
    requires m.Valid() && WithinCapacity(m.Entries(), m.equals, ops, m.capacity)
    modifies m
    ensures m.Valid()
    ensures m.Entries() == AppliedAll(old(m.Entries()), m.equals, ops)
    ensures answers == Answers(old(m.Entries()), m.equals, ops)
  {
    answers := [];
    var n := 0;
    while n < |ops|
      invariant 0 <= n <= |ops| && m.Valid()
      invariant m.Entries() == AppliedAll(old(m.Entries()), m.equals, ops[..n])
      invariant answers == Answers(old(m.Entries()), m.equals, ops[..n])
    {
      assert ops[..n + 1][..n] == ops[..n];
      var answer := RunOp(m, ops[n]);
      if ops[n].Get? {
        answers := answers + [answer];
      }
      n := n + 1;
    }
    assert ops[..n] == ops;
  }

  /** A key that does not match the removed entry is looked up as before. */
  lemma {:induction false} RemoveOthers<K, V>(entries: seq<Entry<K, V>>, equals: (K, K) -> bool, key: K, other: K)
    requires forall i :: 0 <= i < |entries| ==> !(equals(key, entries[i].key) && equals(other, entries[i].key))
    ensures Lookup(RemoveFirst(entries, equals, key), equals, other) == Lookup(entries, equals, other)
  {
    if entries != [] && !equals(key, entries[0].key) {
      RemoveOthers(entries[1..], equals, key, other);
      assert RemoveFirst(entries, equals, key)[1..] == RemoveFirst(entries[1..], equals, key);
    }
  }

  /** A new entry is seen only by keys that had none: the oldest entry wins. */
  lemma {:induction false} OldestWins<K, V>(entries: seq<Entry<K, V>>, equals: (K, K) -> bool, key: K, value: V,
                                            other: K)
    ensures Lookup(entries + [Entry(key, value)], equals, other)
         == if Lookup(entries, equals, other).Some? then Lookup(entries, equals, other)
            else if equals(other, key) then Some(value) else None
  {
    if entries == [] {
      assert entries + [Entry(key, value)] == [Entry(key, value)];
    } else {
      OldestWins(entries[1..], equals, key, value, other);
      assert (entries + [Entry(key, value)])[1..] == entries[1..] + [Entry(key, value)];
    }
  }
}
