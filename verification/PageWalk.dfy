/** The search for unmapped pages over the page tables: the recursive walk that calls the callback. */
module PageWalk {
  import opened Pages
  import opened PageTables
  import opened GapSearch

  /** The search over the entries `i` to `to` of a table. */
  function TableScan(level: nat, entries: seq<Entry>, at: nat, i: nat, to: nat, base: nat, last: nat, nPages: nat): Scan
    requires Sound(level, entries) && to <= ENTRIES
    decreases level, 1, if i < to then to - i else 0
  {
    if i >= to then Scan(last, false)
    else
      var first := EntryScan(level, entries[i], Start(level, at, i), base, last, nPages);
      if first.stopped then first else TableScan(level, entries, at, i + 1, to, base, first.last, nPages)
  }

  function EntryScan(level: nat, e: Entry, at: nat, base: nat, last: nat, nPages: nat): Scan
    requires EntrySound(level, e)
    decreases level, 0, 0
  {
    match e
    case Absent => Scan(last, false)
    case Page =>
      if at < base then Scan(last, false) else if Wide(at, last, nPages) then Scan(last, true) else Scan(at, false)
    case Table(sub) => TableScan(level - 1, sub, at, 0, ENTRIES, base, last, nPages)
  }

  lemma {:induction false} ScannedSum(a: seq<nat>, b: seq<nat>, base: nat, last: nat, nPages: nat)
    ensures var first := Scanned(a, base, last, nPages);
      Scanned(a + b, base, last, nPages) == if first.stopped then first else Scanned(b, base, first.last, nPages)
  {
    if a == [] {
      assert a + b == b;
    } else {
      assert (a + b)[1..] == a[1..] + b;
      ScannedSum(a[1..], b, base, if a[0] < base then last else a[0], nPages);
    }
  }

  /** The walk over a table is the search over what it enumerates. */
  lemma {:induction false} TableScanned(level: nat, entries: seq<Entry>, at: nat, i: nat, to: nat, base: nat,
                                        last: nat, nPages: nat)
    requires Sound(level, entries) && to <= ENTRIES
    ensures TableScan(level, entries, at, i, to, base, last, nPages)
         == Scanned(Starts(Leaves(level, entries, at, i, to)), base, last, nPages)
    decreases level, 1, if i < to then to - i else 0
  {
    if i < to {
      var e, virt := entries[i], Start(level, at, i);
      EntryScanned(level, e, virt, base, last, nPages);
      var first := EntryScan(level, e, virt, base, last, nPages);
      if !first.stopped { TableScanned(level, entries, at, i + 1, to, base, first.last, nPages); }
      StartsSum(EntryLeaves(level, e, virt), Leaves(level, entries, at, i + 1, to));
      ScannedSum(Starts(EntryLeaves(level, e, virt)), Starts(Leaves(level, entries, at, i + 1, to)), base, last,
        nPages);
    }
  }

  lemma {:induction false} EntryScanned(level: nat, e: Entry, at: nat, base: nat, last: nat, nPages: nat)
    requires EntrySound(level, e)
    ensures EntryScan(level, e, at, base, last, nPages) ==
      Scanned(Starts(EntryLeaves(level, e, at)), base, last, nPages)
    decreases level, 0, 0
  {
    match e {
      case Absent =>
      case Page =>
        assert Starts([Mapping(at, Unit(level))]) == [at] && [at][1..] == [];
      case Table(sub) =>
        TableScanned(level - 1, sub, at, 0, ENTRIES, base, last, nPages);
    }
  }

  lemma EntryBelow(level: nat, at: nat, i: nat)
    requires level <= TOP && Aligned(at) && Start(level, at, ENTRIES) <= WORD && i < ENTRIES
    ensures Aligned(Start(level, at, i)) && Start(level, at, i) + Unit(level) <= WORD
  {
    NextStart(level, at, i);
    StartsRise(level, at, i + 1, ENTRIES);
  }

  /** The entries that are walked at a level: all of them, or at the top those of the range. */
  function FirstIndex(level: nat, start: nat): nat {
    if level == TOP then TopIndex(start) else 0
  }

  function EndIndex(level: nat, end: nat): (n: nat)
    ensures n <= ENTRIES
  {
    if level == TOP then TopIndex(end) + 1 else ENTRIES
  }

  /** The outcome of a search, in the fields that the callback updates. */
  predicate Ended(scan: Scan, more: bool, last: nat, ret: nat, ret0: nat) {
    more == !scan.stopped && last == scan.last && ret == if scan.stopped then scan.last else ret0
  }

  /**
   Walks a table and the tables below it, and calls the callback on every mapping until it asks to
   stop. `more` tells the tables above whether it did.
   */
  method IteratePages(entries: seq<Entry>, level: nat, at: nat, start: nat, end: nat, s: Search) returns (more: bool)
    requires Sound(level, entries) && level <= TOP && Aligned(at) && Start(level, at, ENTRIES) <= WORD
    requires s.lastAddress < WORD && s.nPages < WORD
    modifies s
    ensures s.lastAddress < WORD
    ensures var from, to := FirstIndex(level, start), EndIndex(level, end);
      var scan := TableScan(level, entries, at, from, to, s.base, old(s.lastAddress), s.nPages);
      Ended(scan, more, s.lastAddress, s.ret, old(s.ret))
    decreases level, 1
  {
    var index, endIndex := 0, ENTRIES;
    if level == TOP {
      index, endIndex := TopIndex(start), TopIndex(end) + 1;
    }
    ghost var scan := TableScan(level, entries, at, index, endIndex, s.base, s.lastAddress, s.nPages);
    while index < endIndex
      invariant endIndex <= ENTRIES && s.lastAddress < WORD && s.ret == old(s.ret)
      invariant TableScan(level, entries, at, index, endIndex, s.base, s.lastAddress, s.nPages) == scan
    {
      EntryBelow(level, at, index);
      more := VisitEntry(entries[index], level, Start(level, at, index), start, end, s);
      if !more {
        return;
      }
      index := index + 1;
    }
    return true;
  }

  /** One entry, which begins at `virt`: nothing, a mapping for the callback, or a table to walk. */
  method VisitEntry(entry: Entry, level: nat, virt: nat, start: nat, end: nat, s: Search) returns (more: bool)
    requires EntrySound(level, entry) && level <= TOP && Aligned(virt) && virt + Unit(level) <= WORD
    requires s.lastAddress < WORD && s.nPages < WORD
    modifies s
    ensures s.lastAddress < WORD
    ensures var scan := EntryScan(level, entry, virt, s.base, old(s.lastAddress), s.nPages);
      Ended(scan, more, s.lastAddress, s.ret, old(s.ret))
    decreases level, 0
  {
    match entry {
      case Absent =>
        more := true;
      case Page =>
        more := s.Callback(virt);
      case Table(sub) =>
        WholeTable(level, virt);
        more := IteratePages(sub, level - 1, virt, start, end, s);
    }
  }

  /** The addresses of the mappings that a search from `base` to `limit` sees. */
  function Seen(pml4: seq<Entry>, base: nat, limit: nat): seq<nat>
    requires Sound(TOP, pml4)
  {
    Starts(Enumerated(pml4, base, limit))
  }

  lemma SearchScanned(pml4: seq<Entry>, base: nat, limit: nat, last: nat, nPages: nat)
    requires Sound(TOP, pml4)
    ensures var m := From(Seen(pml4, base, limit), base); var k := Stop(m, last, nPages);
      TableScan(TOP, pml4, 0, TopIndex(base), TopIndex(limit) + 1, base, last, nPages) ==
        Scan(Before(m, last, k), k < |m|)
  {
    EnumeratedInOrder(pml4, base, limit);
    TableScanned(TOP, pml4, 0, TopIndex(base), TopIndex(limit) + 1, base, last, nPages);
    ScannedStops(Seen(pml4, base, limit), base, last, nPages);
  }

  /** One pass over the tables. */
  method Pass(pml4: seq<Entry>, base: nat, limit: nat, s: Search, ghost m: seq<nat>)
    requires Sound(TOP, pml4) && m == From(Seen(pml4, base, limit), base) && base == s.base
    requires s.lastAddress < WORD && s.nPages < WORD
    modifies s
    ensures s.lastAddress < WORD
    ensures var k := Stop(m, old(s.lastAddress), s.nPages);
      s.lastAddress == Before(m, old(s.lastAddress), k) && s.ret == if k < |m| then s.lastAddress else old(s.ret)
  {
    LastStart(ENTRIES);
    SearchScanned(pml4, base, limit, s.lastAddress, s.nPages);
    var more := IteratePages(pml4, TOP, 0, base, limit, s);
  }

  method Find(pml4: seq<Entry>, base: nat, limit: nat, nPages: nat, ghost m: seq<nat>) returns (r: nat)
    requires Sound(TOP, pml4) && m == From(Seen(pml4, base, limit), base) && base < WORD && nPages < WORD
    ensures r == Result(m, base, limit, nPages)
  {
    var s := new Search(base, limit, nPages);
    Pass(pml4, base, limit, s, m);
    if s.ret == limit {
      Pass(pml4, base, limit, s, m);
      if s.ret == limit {
        return 0;
      }
    }
    r := (s.ret + 0x1000) % WORD;
  }

  method FindUsableAddress(isUserProcess: bool, pml4: seq<Entry>, nPages: nat) returns (r: nat)
    requires Sound(TOP, pml4) && nPages < WORD
    ensures var base := if isUserProcess then USER_BASE else KERNEL_BASE;
      var limit := if isUserProcess then USER_LIMIT else KERNEL_LIMIT;
      var m := From(Seen(pml4, base, limit), base);
      && r == Result(m, base, limit, nPages)
      && (r != 0 ==> (Unmapped(m, r, nPages) <==> nPages + 1 < WORD))
      && (nPages + 1 < WORD ==> Found(m, base, limit, nPages, r))
  {
    var base := if isUserProcess then USER_BASE else KERNEL_BASE;
    var limit := if isUserProcess then USER_LIMIT else KERNEL_LIMIT;
    ghost var pages := Seen(pml4, base, limit);
    r := Find(pml4, base, limit, nPages, From(pages, base));
    EnumeratedInOrder(pml4, base, limit);
    Skipped(pages, base);
    if nPages + 1 < WORD {
      SearchFinds(From(pages, base), base, limit, nPages, r);
    } else {
      CountWraps(From(pages, base), base, limit, nPages, r);
    }
  }
}
