/** What becomes of the hash map when its tables grow. */
module HashmapGrowth {
  import opened LinkedList
  import opened Selection
  import opened Hashmap

  const FIRST_CAPACITY := 64

  function Frees<K, V>(n: nat): seq<Slot<K, V>> {
    seq(n, _ => Free)
  }

  function FirstFree<K, V>(table: seq<Slot<K, V>>): (k: nat)
    ensures k <= |table| && (k < |table| ==> table[k].Free?) && forall i :: 0 <= i < k ==> table[i].Used?
  {
    if table == [] || table[0].Free? then 0 else 1 + FirstFree(table[1..])
  }

  /**
   The slot table after an entry was added: the first free slot is filled. A full table is doubled
   first, and then slot 1 is filled.
   */
  function Emplaced<K, V>(table: seq<Slot<K, V>>, slot: Slot<K, V>): seq<Slot<K, V>> {
    var k := FirstFree(table);
    if table == [] then Frees(FIRST_CAPACITY)[0 := slot]
    else if k < |table| then table[k := slot]
    else (table + Frees(|table|))[1 := slot]
  }

  lemma {:induction false} EntriesLonger<K, V>(slots: seq<nat>, table: seq<Slot<K, V>>, more: seq<Slot<K, V>>)
    requires AllUsed(slots, table)
    ensures AllUsed(slots, table + more) && EntriesOf(slots, table + more) == EntriesOf(slots, table)
  {
    if slots != [] { EntriesLonger(slots[1..], table, more); }
  }

  lemma SlotsLonger<K, V>(table: seq<Slot<K, V>>, slots: seq<nat>, n: nat)
    requires SlotsOk(table, slots)
    ensures SlotsOk(table + Frees(n), slots) && EntriesOf(slots, table + Frees(n)) == EntriesOf(slots, table)
  {
    EntriesLonger(slots, table, Frees(n));
  }

  function Members(s: seq<nat>): (r: set<nat>)
    ensures forall x :: x in r <==> x in s
  {
    if s == [] then {} else {s[0]} + Members(s[1..])
  }

  lemma {:induction false} MembersCount(s: seq<nat>)
    requires Distinct(s)
    ensures |Members(s)| == |s|
  {
    if s != [] { MembersCount(s[1..]); }
  }

  function Below(n: nat): (r: set<nat>)
    ensures |r| == n && forall x: nat :: x in r <==> x < n
  {
    if n == 0 then {} else Below(n - 1) + {n - 1}
  }

  lemma SubsetSize(a: set<nat>, b: set<nat>)
    requires a <= b
    ensures |a| <= |b| && (|a| == |b| ==> a == b)
  {
    assert b == a + (b - a);
  }

  /** Lists of the slots in use are equally long. */
  lemma SlotsLength<K, V>(table: seq<Slot<K, V>>, slots: seq<nat>, table': seq<Slot<K, V>>, slots': seq<nat>)
    requires SlotsOk(table, slots) && SlotsOk(table', slots')
    requires forall s: nat :: (s < |table| && table[s].Used?) <==> (s < |table'| && table'[s].Used?)
    ensures |slots| == |slots'|
  {
    MembersCount(slots);
    MembersCount(slots');
    assert Members(slots) == Members(slots');
  }

  /** The table holds the entry besides the old ones, in some order of its slots. */
  ghost predicate Adds<K, V>(table: seq<Slot<K, V>>, slots: seq<nat>, slot: Slot<K, V>, table': seq<Slot<K, V>>)
    requires AllUsed(slots, table) && slot.Used?
  {
    exists slots' :: SlotsOk(table', slots')
      && EntriesOf(slots', table') == EntriesOf(slots, table) + [Entry(slot.key, slot.value)]
  }

  /**
   An entry is added to the others if and only if the table has a free slot, or no more than one
   slot. In any other full table the entry of slot 1 is overwritten.
   */
  lemma AddsIff<K, V>(table: seq<Slot<K, V>>, slots: seq<nat>, slot: Slot<K, V>)
    requires SlotsOk(table, slots) && slot.Used?
    ensures Adds(table, slots, slot, Emplaced(table, slot)) <==> |slots| < |table| || |table| <= 1
  {
    var k := FirstFree(table);
    if table == [] {
      SlotsLonger(table, slots, FIRST_CAPACITY);
      assert table + Frees(FIRST_CAPACITY) == Frees(FIRST_CAPACITY);
      SlotsEmplaced(Frees(FIRST_CAPACITY), slots, 0, slot);
    } else if k < |table| {
      RoomLeft(table, slots, k);
      SlotsEmplaced(table, slots, k, slot);
    } else if |table| == 1 {
      SlotsLonger(table, slots, 1);
      SlotsEmplaced(table + Frees(1), slots, 1, slot);
    } else {
      NoRoom(table, slots);
      FullLoses(table, slots, slot);
    }
  }

  lemma RoomLeft<K, V>(table: seq<Slot<K, V>>, slots: seq<nat>, k: nat)
    requires SlotsOk(table, slots) && k < |table| && table[k].Free?
    ensures |slots| < |table|
  {
    MembersCount(slots);
    SubsetSize(Members(slots), Below(|table|));
    assert k in Below(|table|) && k !in Members(slots);
  }

  lemma NoRoom<K, V>(table: seq<Slot<K, V>>, slots: seq<nat>)
    requires SlotsOk(table, slots) && FirstFree(table) == |table|
    ensures |slots| >= |table|
  {
    CoversLong(slots, |table|);
  }

  lemma FullLoses<K, V>(table: seq<Slot<K, V>>, slots: seq<nat>, slot: Slot<K, V>)
    requires SlotsOk(table, slots) && slot.Used? && FirstFree(table) == |table| && |table| > 1
    ensures !Adds(table, slots, slot, Emplaced(table, slot))
  {
    var table' := Emplaced(table, slot);
    forall slots' | SlotsOk(table', slots') ensures |slots'| == |slots| {
      SlotsLength(table, slots, table', slots');
    }
  }

  /** A table of 64 slots after the keys from 0 to `n` were put into it. */
  function Filled(n: nat): seq<Slot<nat, nat>> {
    seq(FIRST_CAPACITY, i => if 0 <= i < n then Used(i, i, i + 1) else Free)
  }

  lemma FilledStep(n: nat)
    requires n < FIRST_CAPACITY
    ensures Emplaced(Filled(n), Used(n, n, n + 1)) == Filled(n + 1)
  {
    var k := FirstFree(Filled(n));
    assert Filled(n)[n].Free?;
    assert k <= n;
    assert Filled(n)[k].Free?;
  }

  /** 64 keys fill the table, and when the next one is put, key 1 is gone. */
  lemma FullWitness()
    ensures Filled(0) == Frees(FIRST_CAPACITY) && forall n: nat :: n < FIRST_CAPACITY ==> Puts(n)
    ensures var table := Emplaced(Filled(FIRST_CAPACITY), Used(64, 64, 65));
      |table| == 128 && forall i :: 0 <= i < |table| && table[i].Used? ==> table[i].key != 1
  {
    forall n: nat | n < FIRST_CAPACITY ensures Puts(n) {
      FilledStep(n);
    }
    assert FirstFree(Filled(FIRST_CAPACITY)) == FIRST_CAPACITY;
  }

  /** Putting key `n` makes the table that holds one key more. */
  ghost predicate Puts(n: nat) {
    Emplaced(Filled(n), Used(n, n, n + 1)) == Filled(n + 1)
  }

  /** The index after the tables were made longer: nothing is moved to another bucket. */
  function Expanded<K, V>(x: Index<K, V>, n: nat): Index<K, V> {
    x.(buckets := x.buckets + seq(n, _ => Bucket(Ends(0, 0), 0)), chainCells := x.chainCells + seq(n, _ => []),
       table := x.table + Frees(n))
  }

  /** The bucket of every key is the same after the tables were made longer. */
  predicate StayHome<K, V>(x: Index<K, V>, hash: K -> nat, n: nat)
    requires AllUsed(x.slots, x.table)
  {
    forall i :: 0 <= i < |x.slots| ==> var h := hash(x.table[x.slots[i]].key); h % (|x.table| + n) == h % |x.table|
  }

  /** A longer table is indexed right if and only if no key belongs in another bucket than before. */
  lemma ExpandedIff<K, V>(x: Index<K, V>, hash: K -> nat, n: nat)
    requires IndexOk(x, hash) && AllUsed(x.slots, x.table)
    ensures IndexOk(Expanded(x, n), hash) <==> StayHome(x, hash, n)
  {
    if StayHome(x, hash, n) {
      ExpandedRight(x, hash, n);
    } else {
      var i :| 0 <= i < |x.slots| && var h := hash(x.table[x.slots[i]].key); h % (|x.table| + n) != h % |x.table|;
      ExpandedWrong(x, hash, n, i);
    }
  }

  lemma ExpandedRight<K, V>(x: Index<K, V>, hash: K -> nat, n: nat)
    requires IndexOk(x, hash) && AllUsed(x.slots, x.table) && StayHome(x, hash, n)
    ensures IndexOk(Expanded(x, n), hash)
  {
    var x' := Expanded(x, n);
    forall b: nat | b < |x'.buckets| ensures BucketOk(x', hash, b) {
      if b < |x.buckets| {
        assert BucketOk(x, hash, b);
        FilterSame(x.slots, Home(x.table, hash, b), Home(x'.table, hash, b));
      } else {
        NoneHome(x, hash, n, b);
      }
    }
    forall b, c | 0 <= b < |x'.chainCells| && 0 <= c < |x'.chainCells| && b != c
      ensures Disjoint(x'.chainCells[b], x'.chainCells[c])
    {
      if b < |x.chainCells| && c < |x.chainCells| { assert Disjoint(x.chainCells[b], x.chainCells[c]); }
    }
  }

  lemma NoneHome<K, V>(x: Index<K, V>, hash: K -> nat, n: nat, b: nat)
    requires AllUsed(x.slots, x.table) && StayHome(x, hash, n) && b >= |x.table|
    ensures Filter(x.slots, Home(x.table + Frees(n), hash, b)) == []
  {
    var away := Home(x.table + Frees(n), hash, b);
    forall i | 0 <= i < |x.slots| ensures !away(x.slots[i]) {
      BelowModulus(hash(x.table[x.slots[i]].key), |x.table|);
    }
    FilterNone(x.slots, away);
  }

  lemma BelowModulus(h: nat, c: nat)
    requires c > 0
    ensures h % c < c
  {
  }

  lemma {:induction false} FilterNone(s: seq<nat>, pick: nat -> bool)
    requires forall i :: 0 <= i < |s| ==> !pick(s[i])
    ensures Filter(s, pick) == []
  {
    if s != [] { FilterNone(s[1..], pick); }
  }

  lemma ExpandedWrong<K, V>(x: Index<K, V>, hash: K -> nat, n: nat, i: nat)
    requires IndexOk(x, hash) && AllUsed(x.slots, x.table) && i < |x.slots|
    requires var h := hash(x.table[x.slots[i]].key); h % (|x.table| + n) != h % |x.table|
    ensures !IndexOk(Expanded(x, n), hash)
  {
    var x', s := Expanded(x, n), x.slots[i];
    var b := hash(x.table[s].key) % |x.table|;
    assert BucketOk(x, hash, b);
    FilterMembers(x.slots, Home(x.table, hash, b));
    FilterMembers(x.slots, Home(x'.table, hash, b));
    assert s in Filter(x.slots, Home(x.table, hash, b)) && s !in Filter(x.slots, Home(x'.table, hash, b));
    CarriesOnce(x.chains, x.chainCells[b], Filter(x.slots, Home(x.table, hash, b)),
      Filter(x.slots, Home(x'.table, hash, b)));
    assert !BucketOk(x', hash, b);
  }

  lemma CarriesOnce(mem: map<nat, Cell<nat>>, cells: seq<nat>, data: seq<nat>, data': seq<nat>)
    requires Carries(mem, cells, data) && data != data'
    ensures !Carries(mem, cells, data')
  {
  }

  function Identity(k: nat): nat {
    k
  }

  /** The 64 keys from 64 on, each in slot and bucket number 64 less. */
  const FULL: Index<nat, nat> := Index(
    map b: nat | 1 <= b <= FIRST_CAPACITY :: Cell(b - 1, 0, 0),
    seq(FIRST_CAPACITY, (b: nat) => Bucket(Ends(b + 1, b + 1), 1)),
    seq(FIRST_CAPACITY, (b: nat) => [b + 1]),
    seq(FIRST_CAPACITY, (i: nat) => Used(64 + i, i, i + 1)),
    seq(FIRST_CAPACITY, (i: nat) => i))

  lemma {:induction false} FilterOne(s: seq<nat>, pick: nat -> bool, k: nat)
    requires k < |s| && pick(s[k]) && forall i :: 0 <= i < |s| && i != k ==> !pick(s[i])
    ensures Filter(s, pick) == [s[k]]
  {
    if k == 0 { FilterNone(s[1..], pick); } else { FilterOne(s[1..], pick, k - 1); }
  }

  lemma SingleCell(chains: map<nat, Cell<nat>>, a: nat, s: nat)
    requires a != 0 && a in chains && chains[a] == Cell(s, 0, 0)
    ensures BucketHolds(chains, Bucket(Ends(a, a), 1), [a], [s])
  {
    assert [a][1..] == [] && Ends(a, a) == EndsOf([a]);
    assert Distinct([a]);
    assert forall i :: 0 <= i < |[a]| ==> CellOk(chains, [a], i);
  }

  lemma FullBucket(b: nat)
    requires b < FIRST_CAPACITY
    ensures BucketOk(FULL, Identity, b)
  {
    var pick := Home(FULL.table, Identity, b);
    forall i: nat | i < FIRST_CAPACITY ensures pick(FULL.slots[i]) <==> i == b {
      assert Identity(64 + i) % FIRST_CAPACITY == i;
    }
    FilterOne(FULL.slots, pick, b);
    SingleCell(FULL.chains, b + 1, b);
    assert FULL.chainCells[b] == [b + 1] && FULL.buckets[b] == Bucket(Ends(b + 1, b + 1), 1);
  }

  lemma FullIndex()
    ensures IndexOk(FULL, Identity) && AllUsed(FULL.slots, FULL.table)
  {
    forall b: nat | b < |FULL.buckets| ensures BucketOk(FULL, Identity, b) {
      FullBucket(b);
    }
  }

  /** In a full table every key is in the wrong bucket once the table is doubled. */
  lemma MisplacedWitness()
    ensures IndexOk(FULL, Identity) && !IndexOk(Expanded(FULL, FIRST_CAPACITY), Identity)
  {
    FullIndex();
    ExpandedIff(FULL, Identity, FIRST_CAPACITY);
    var h := Identity(FULL.table[FULL.slots[0]].key);
    assert h % (|FULL.table| + FIRST_CAPACITY) != h % |FULL.table|;
  }
}
