/** The translation of an address, and that the enumeration of the page tables agrees with it. */
module PageLookup {
  import opened Options
  import opened Pages
  import opened PageTables

  predicate MultipleOf(a: nat, level: nat) {
    a % Unit(level) == 0
  }

  /** The entry of a table that an address belongs to. */
  function IndexAt(level: nat, x: nat): (i: nat)
    ensures i < ENTRIES
  {
    x / Unit(level) % ENTRIES
  }

  /** The mapping that the processor finds for an address. */
  function Resolve(level: nat, entries: seq<Entry>, at: nat, x: nat): Option<Mapping>
    requires Sound(level, entries)
    decreases level, 1
  {
    var i := IndexAt(level, x);
    ResolveEntry(level, entries[i], Start(level, at, i), x)
  }

  function ResolveEntry(level: nat, e: Entry, at: nat, x: nat): Option<Mapping>
    requires EntrySound(level, e)
    decreases level, 0
  {
    match e
    case Absent => None
    case Page => Some(Mapping(at, Unit(level)))
    case Table(sub) => Resolve(level - 1, sub, at, x)
  }

  predicate Covers(m: Mapping, x: nat) {
    m.start <= x < End(m)
  }

  /** The address is in entry `i` of the table at `at`. */
  predicate InEntry(level: nat, at: nat, i: nat, x: nat) {
    Start(level, at, i) <= x < Start(level, at, i) + Unit(level)
  }

  /** An address that the processor takes: not in the hole between the halves. */
  predicate Canonical(x: nat) {
    x < 0x8000_0000_0000 || 0xffff_8000_0000_0000 <= x < WORD
  }

  // ----- the entry of an address

  lemma LargeMultiple(d: int, u: nat)
    requires u > 0 && d != 0
    ensures d * u >= u || d * u <= 0 - u
  {
  }

  lemma QuotientIs(x: nat, u: nat, q: nat, r: nat)
    requires u > 0 && r < u && x == q * u + r
    ensures x / u == q
  {
    var d := x / u - q;
    assert d * u == (x / u) * u - q * u;
    if d != 0 { LargeMultiple(d, u); }
  }

  lemma Regroup(k: nat, i: nat, u: nat)
    ensures k * (ENTRIES * u) + i * u == (ENTRIES * k + i) * u
  {
  }

  lemma RestIs(k: nat, i: nat)
    requires i < ENTRIES
    ensures (ENTRIES * k + i) % ENTRIES == i
  {
  }

  /** Address `r` behind the beginning of entry `i` of a table that begins at a multiple of its extent. */
  lemma IndexIs(k: nat, i: nat, u: nat, r: nat)
    requires u > 0 && r < u && i < ENTRIES
    ensures (k * (ENTRIES * u) + i * u + r) / u % ENTRIES == i
  {
    Regroup(k, i, u);
    QuotientIs(k * (ENTRIES * u) + i * u + r, u, ENTRIES * k + i, r);
    RestIs(k, i);
  }

  lemma MultipleIs(a: nat, u: nat)
    requires u > 0 && a % u == 0
    ensures a == (a / u) * u
  {
  }

  lemma IndexBelowTop(level: nat, at: nat, i: nat, x: nat)
    requires level < TOP && MultipleOf(at, level + 1) && i < ENTRIES && InEntry(level, at, i, x)
    ensures IndexAt(level, x) == i
  {
    var u := Unit(level);
    MultipleIs(at, ENTRIES * u);
    IndexIs(at / (ENTRIES * u), i, u, x - (at + i * u));
  }

  lemma IndexAtTop(i: nat, x: nat)
    requires i < ENTRIES && InEntry(TOP, 0, i, x)
    ensures IndexAt(TOP, x) == i
  {
    UnitValues();
    var u := Unit(TOP);
    var k := if i >= HALF then 0xffff else 0;
    assert k * (ENTRIES * u) + i * u == Start(TOP, 0, i);
    IndexIs(k, i, u, x - Start(TOP, 0, i));
  }

  lemma IndexOf(level: nat, at: nat, i: nat, x: nat)
    requires level <= TOP && TableAt(level, at) && i < ENTRIES && InEntry(level, at, i, x)
    ensures IndexAt(level, x) == i
  {
    if level == TOP { IndexAtTop(i, x); } else { IndexBelowTop(level, at, i, x); }
  }

  /** Where a table can begin. */
  predicate TableAt(level: nat, at: nat) {
    Aligned(at) && if level >= TOP then at == 0 else MultipleOf(at, level + 1)
  }

  /** The addresses of a table: at the top, all that the processor takes. */
  predicate InTable(level: nat, at: nat, x: nat) {
    if level == TOP then Canonical(x) else at <= x < at + Unit(level + 1)
  }

  lemma TopEntryOf(x: nat) returns (i: nat)
    requires Canonical(x)
    ensures i < ENTRIES && InEntry(TOP, 0, i, x)
  {
    UnitValues();
    i := x / Unit(TOP) % ENTRIES;
  }

  lemma EntryBelow(y: nat, u: nat)
    requires u > 0 && y < ENTRIES * u
    ensures y / u < ENTRIES && (y / u) * u <= y < (y / u) * u + u
  {
    assert y == (y / u) * u + y % u;
  }

  /** Every address of a table is in the entry that its index names. */
  lemma EntryOf(level: nat, at: nat, x: nat)
    requires level <= TOP && TableAt(level, at) && InTable(level, at, x)
    ensures InEntry(level, at, IndexAt(level, x), x)
  {
    var i;
    if level == TOP {
      i := TopEntryOf(x);
    } else {
      i := (x - at) / Unit(level);
      EntryBelow(x - at, Unit(level));
    }
    IndexOf(level, at, i, x);
  }

  lemma MultipleStep(a: nat, i: nat, u: nat)
    requires u > 0 && a % (ENTRIES * u) == 0
    ensures (a + i * u) % u == 0
  {
    MultipleIs(a, ENTRIES * u);
    var k := a / (ENTRIES * u);
    Regroup(k, i, u);
    Exact(ENTRIES * k + i, u);
  }

  lemma Exact(q: nat, u: nat)
    requires u > 0
    ensures q * u % u == 0
  {
    QuotientIs(q * u, u, q, 0);
  }

  /** A table that an entry points to begins where such tables can. */
  lemma SubTableAt(level: nat, at: nat, i: nat)
    requires 0 < level <= TOP && TableAt(level, at) && i < ENTRIES
    ensures TableAt(level - 1, Start(level, at, i))
  {
    NextStart(level, at, i);
    if level == TOP {
      UnitValues();
    } else {
      MultipleStep(at, i, Unit(level));
    }
  }

  // ----- the enumeration and the translation

  lemma {:induction false} LeafOf(level: nat, entries: seq<Entry>, at: nat, from: nat, to: nat, m: Mapping)
    returns (i: nat)
    requires Sound(level, entries) && to <= ENTRIES && m in Leaves(level, entries, at, from, to)
    ensures from <= i < to && m in EntryLeaves(level, entries[i], Start(level, at, i))
    decreases if from < to then to - from else 0
  {
    if m in EntryLeaves(level, entries[from], Start(level, at, from)) {
      i := from;
    } else {
      i := LeafOf(level, entries, at, from + 1, to, m);
    }
  }

  lemma {:induction false} EntryLeaf(level: nat, entries: seq<Entry>, at: nat, from: nat, to: nat, i: nat, m: Mapping)
    requires Sound(level, entries) && from <= i < to <= ENTRIES
    requires m in EntryLeaves(level, entries[i], Start(level, at, i))
    ensures m in Leaves(level, entries, at, from, to)
    decreases i - from
  {
    if from < i { EntryLeaf(level, entries, at, from + 1, to, i, m); }
  }

  lemma EntryInside(level: nat, e: Entry, at: nat, m: Mapping)
    requires level <= TOP && EntrySound(level, e) && Aligned(at) && m in EntryLeaves(level, e, at)
    ensures at <= m.start && End(m) <= at + Unit(level)
  {
    EntryInOrder(level, e, at);
  }

  lemma InOneEntry(level: nat, at: nat, i: nat, j: nat, x: nat)
    requires level <= TOP && Aligned(at) && InEntry(level, at, i, x) && InEntry(level, at, j, x)
    ensures i == j
  {
    if i < j {
      NextStart(level, at, i);
      StartsRise(level, at, i + 1, j);
    } else if j < i {
      NextStart(level, at, j);
      StartsRise(level, at, j + 1, i);
    }
  }

  /** Of the mappings of a table only those of the entry of an address can cover it. */
  lemma CoverEntry(level: nat, entries: seq<Entry>, at: nat, from: nat, to: nat, i: nat, x: nat, m: Mapping)
    requires level <= TOP && Sound(level, entries) && Aligned(at) && from <= i < to <= ENTRIES
    requires InEntry(level, at, i, x) && Covers(m, x)
    ensures m in Leaves(level, entries, at, from, to) <==> m in EntryLeaves(level, entries[i], Start(level, at, i))
  {
    if m in EntryLeaves(level, entries[i], Start(level, at, i)) { EntryLeaf(level, entries, at, from, to, i, m); }
    if m in Leaves(level, entries, at, from, to) {
      var j := LeafOf(level, entries, at, from, to, m);
      NextStart(level, at, j);
      EntryInside(level, entries[j], Start(level, at, j), m);
      InOneEntry(level, at, i, j, x);
    }
  }

  /** A mapping covers an address and is enumerated if and only if the translation of the address finds it. */
  lemma {:induction false} ResolvedLeaf(level: nat, entries: seq<Entry>, at: nat, from: nat, to: nat, x: nat,
                                        m: Mapping)
    requires level <= TOP && Sound(level, entries) && TableAt(level, at) && InTable(level, at, x)
    requires from <= IndexAt(level, x) < to <= ENTRIES
    ensures m in Leaves(level, entries, at, from, to) && Covers(m, x) <==> Resolve(level, entries, at, x) == Some(m)
    decreases level, 1
  {
    var i := IndexAt(level, x);
    var virt := Start(level, at, i);
    EntryOf(level, at, x);
    if level > 0 { SubTableAt(level, at, i); }
    ResolvedEntry(level, entries[i], virt, x, m);
    if Covers(m, x) { CoverEntry(level, entries, at, from, to, i, x, m); }
  }

  lemma {:induction false} ResolvedEntry(level: nat, e: Entry, at: nat, x: nat, m: Mapping)
    requires level <= TOP && EntrySound(level, e) && at <= x < at + Unit(level)
    requires level > 0 ==> TableAt(level - 1, at)
    ensures m in EntryLeaves(level, e, at) && Covers(m, x) <==> ResolveEntry(level, e, at, x) == Some(m)
    decreases level, 0
  {
    if e.Table? {
      ResolvedLeaf(level - 1, e.entries, at, 0, ENTRIES, x, m);
    }
  }

  /** The addresses whose top-level entries are walked for a range. */
  predicate Walked(start: nat, end: nat, x: nat) {
    Canonical(x) && TopIndex(start) <= TopIndex(x) <= TopIndex(end)
  }

  /**
   For every page table: the mappings enumerated for a range are exactly those that translations of
   its addresses find.
   */
  lemma EnumeratedExact(pml4: seq<Entry>, start: nat, end: nat, x: nat, m: Mapping)
    requires Sound(TOP, pml4) && Walked(start, end, x)
    ensures m in Enumerated(pml4, start, end) && Covers(m, x) <==> Resolve(TOP, pml4, 0, x) == Some(m)
  {
    ResolvedLeaf(TOP, pml4, 0, TopIndex(start), TopIndex(end) + 1, x, m);
  }

  /** Every address of a mapping that is enumerated is walked. */
  lemma EnumeratedWalked(pml4: seq<Entry>, start: nat, end: nat, x: nat, m: Mapping)
    requires Sound(TOP, pml4) && m in Enumerated(pml4, start, end) && Covers(m, x)
    ensures Walked(start, end, x)
  {
    var i := LeafOf(TOP, pml4, 0, TopIndex(start), TopIndex(end) + 1, m);
    NextStart(TOP, 0, i);
    EntryInside(TOP, pml4[i], Start(TOP, 0, i), m);
    IndexOf(TOP, 0, i, x);
    InEntryCanonical(i, x);
  }

  lemma InEntryCanonical(i: nat, x: nat)
    requires i < ENTRIES && InEntry(TOP, 0, i, x)
    ensures Canonical(x)
  {
    UnitValues();
  }
}
