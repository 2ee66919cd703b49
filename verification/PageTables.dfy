/**
 Four-level page tables: what their entries map, in which order the entries are enumerated, and how
 an address is translated.
 */
module PageTables {
  import opened Pages

  const ENTRIES := 512
  const TOP := 3 // the level of the table that the others hang from
  const HALF := 256 // the first top-level entry of the upper half of the address space
  const UPPER_BITS := 0xffff_0000_0000_0000

  /** An entry of a table. At levels 1 and 2 a page is a large one. */
  datatype Entry = Absent | Page | Table(entries: seq<Entry>)

  /** Mapped memory. */
  datatype Mapping = Mapping(start: nat, size: nat)

  /** How many bytes an entry of a table stands for. */
  function Unit(level: nat): (u: nat)
    ensures u >= PAGE
  {
    if level == 0 then PAGE else ENTRIES * Unit(level - 1)
  }

  predicate Sound(level: nat, entries: seq<Entry>)
    decreases level, 1
  {
    |entries| == ENTRIES && forall i :: 0 <= i < ENTRIES ==> EntrySound(level, entries[i])
  }

  predicate EntrySound(level: nat, e: Entry)
    decreases level, 0
  {
    match e
    case Absent => true
    case Page => level < TOP
    case Table(sub) => level > 0 && Sound(level - 1, sub)
  }

  /** The first address of entry `i` of a table that begins at `at`; at the top the hole is skipped. */
  function Start(level: nat, at: nat, i: nat): nat {
    if level == TOP then i * Unit(TOP) + (if i >= HALF then UPPER_BITS else 0) else at + i * Unit(level)
  }

  /** What the entries `from` to `to` map, in order. */
  function Leaves(level: nat, entries: seq<Entry>, at: nat, from: nat, to: nat): seq<Mapping>
    requires Sound(level, entries) && to <= ENTRIES
    decreases level, 1, if from < to then to - from else 0
  {
    if from >= to then []
    else EntryLeaves(level, entries[from], Start(level, at, from)) + Leaves(level, entries, at, from + 1, to)
  }

  function EntryLeaves(level: nat, e: Entry, at: nat): seq<Mapping>
    requires EntrySound(level, e)
    decreases level, 0, 0
  {
    match e
    case Absent => []
    case Page => [Mapping(at, Unit(level))]
    case Table(sub) => Leaves(level - 1, sub, at, 0, ENTRIES)
  }

  // ----- order

  function End(m: Mapping): nat {
    m.start + m.size
  }

  predicate Inside(m: Mapping, lo: nat, hi: nat) {
    lo <= m.start && m.size >= PAGE && End(m) <= hi && Aligned(m.start)
  }

  /** The mappings lie between `lo` and `hi`, one after the other. */
  ghost predicate InOrder(ms: seq<Mapping>, lo: nat, hi: nat) {
    && (forall i :: 0 <= i < |ms| ==> Inside(ms[i], lo, hi))
    && (forall i, j :: 0 <= i < j < |ms| ==> End(ms[i]) <= ms[j].start)
  }

  lemma Joined(a: seq<Mapping>, b: seq<Mapping>, lo: nat, mid: nat, mid': nat, hi: nat)
    requires InOrder(a, lo, mid) && InOrder(b, mid', hi) && lo <= mid <= mid' <= hi
    ensures InOrder(a + b, lo, hi)
  {
  }

  lemma UnitValues()
    ensures Unit(0) == PAGE && Unit(1) == 0x20_0000 && Unit(2) == 0x4000_0000 && Unit(TOP) == 0x80_0000_0000
  {
    assert Unit(1) == ENTRIES * Unit(0);
    assert Unit(2) == ENTRIES * Unit(1);
    assert Unit(3) == ENTRIES * Unit(2);
  }

  lemma Times(i: nat, u: nat)
    ensures (i + 1) * u == i * u + u
  {
  }

  lemma SumAligned(a: nat, b: nat)
    requires Aligned(a) && Aligned(b)
    ensures Aligned(a + b)
  {
  }

  lemma {:induction false} TimesAligned(i: nat, u: nat)
    requires Aligned(u)
    ensures Aligned(i * u)
  {
    if i > 0 {
      TimesAligned(i - 1, u);
      Times(i - 1, u);
      SumAligned((i - 1) * u, u);
    }
  }

  lemma UnitAligned(level: nat)
    requires level <= TOP
    ensures Aligned(Unit(level))
  {
    UnitValues();
  }

  /** Entry `i + 1` begins where entry `i` ends, or behind the hole. */
  lemma NextStart(level: nat, at: nat, i: nat)
    requires level <= TOP && Aligned(at)
    ensures Start(level, at, i) + Unit(level) <= Start(level, at, i + 1) && Aligned(Start(level, at, i))
    ensures level < TOP ==> Start(level, at, i) + Unit(level) == Start(level, at, i + 1)
  {
    var u := Unit(level);
    UnitAligned(level);
    Times(i, u);
    TimesAligned(i, u);
    SumAligned(i * u, if level == TOP then if i >= HALF then UPPER_BITS else 0 else at);
  }

  lemma {:induction false} StartsRise(level: nat, at: nat, i: nat, j: nat)
    requires level <= TOP && Aligned(at) && i <= j
    ensures Start(level, at, i) <= Start(level, at, j)
    decreases j
  {
    if i < j {
      StartsRise(level, at, i, j - 1);
      NextStart(level, at, j - 1);
    }
  }

  /** The enumeration is in ascending order, and mappings do not overlap. */
  lemma {:induction false} LeavesInOrder(level: nat, entries: seq<Entry>, at: nat, from: nat, to: nat)
    requires level <= TOP && Sound(level, entries) && Aligned(at) && from <= to <= ENTRIES
    ensures InOrder(Leaves(level, entries, at, from, to), Start(level, at, from), Start(level, at, to))
    decreases level, 1, to - from
  {
    if from < to {
      var lo, mid, hi := Start(level, at, from), Start(level, at, from + 1), Start(level, at, to);
      var first, rest := EntryLeaves(level, entries[from], lo), Leaves(level, entries, at, from + 1, to);
      assert lo + Unit(level) <= mid && Aligned(lo) by { NextStart(level, at, from); }
      assert mid <= hi by { StartsRise(level, at, from + 1, to); }
      EntryInOrder(level, entries[from], lo);
      LeavesInOrder(level, entries, at, from + 1, to);
      Joined(first, rest, lo, lo + Unit(level), mid, hi);
    }
  }

  lemma {:induction false} EntryInOrder(level: nat, e: Entry, at: nat)
    requires level <= TOP && EntrySound(level, e) && Aligned(at)
    ensures InOrder(EntryLeaves(level, e, at), at, at + Unit(level))
    decreases level, 0, 0
  {
    if e.Table? {
      LeavesInOrder(level - 1, e.entries, at, 0, ENTRIES);
      WholeTable(level, at);
    }
  }

  /** The entries of a table stand for as much as the entry that points to it. */
  lemma WholeTable(level: nat, at: nat)
    requires 0 < level <= TOP
    ensures Start(level - 1, at, 0) == at && Start(level - 1, at, ENTRIES) == at + Unit(level)
  {
  }

  // ----- the enumeration of a range of addresses

  /** The top-level entry of an address. */
  function TopIndex(a: nat): (i: nat)
    ensures i < ENTRIES
  {
    a / Unit(TOP) % ENTRIES
  }

  /** What is enumerated for the addresses from `start` to `end`: whole top-level entries. */
  function Enumerated(pml4: seq<Entry>, start: nat, end: nat): seq<Mapping>
    requires Sound(TOP, pml4)
  {
    Leaves(TOP, pml4, 0, TopIndex(start), TopIndex(end) + 1)
  }

  function Starts(ms: seq<Mapping>): (r: seq<nat>)
    ensures |r| == |ms| && forall i :: 0 <= i < |r| ==> r[i] == ms[i].start
  {
    if ms == [] then [] else [ms[0].start] + Starts(ms[1..])
  }

  lemma StartsSum(a: seq<Mapping>, b: seq<Mapping>)
    ensures Starts(a + b) == Starts(a) + Starts(b)
  {
  }

  lemma LastStart(to: nat)
    requires to <= ENTRIES
    ensures Start(TOP, 0, to) <= WORD && Start(TOP, 0, ENTRIES) == WORD
  {
    UnitValues();
  }

  /** The enumeration of every table is in ascending order, without overlaps. */
  lemma EnumeratedInOrder(pml4: seq<Entry>, start: nat, end: nat)
    requires Sound(TOP, pml4)
    ensures InOrder(Enumerated(pml4, start, end), Start(TOP, 0, TopIndex(start)), WORD)
    ensures Ascending(Starts(Enumerated(pml4, start, end)))
  {
    var from, to := TopIndex(start), TopIndex(end) + 1;
    if from <= to {
      LeavesInOrder(TOP, pml4, 0, from, to);
      LastStart(to);
    }
  }
}
