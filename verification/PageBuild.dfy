/** Page tables for given mappings: every set of mappings that can be in page tables is. */
module PageBuild {
  import opened Options
  import opened PageTables
  import opened PageLookup

  function Build(level: nat, at: nat, ms: set<Mapping>): (entries: seq<Entry>)
    requires level <= TOP
    ensures Sound(level, entries)
    ensures forall i :: 0 <= i < ENTRIES ==> entries[i] == BuildEntry(level, Start(level, at, i), ms)
    decreases level, 1
  {
    seq(ENTRIES, i requires 0 <= i < ENTRIES => BuildEntry(level, Start(level, at, i), ms))
  }

  function BuildEntry(level: nat, at: nat, ms: set<Mapping>): (e: Entry)
    requires level <= TOP
    ensures EntrySound(level, e)
    decreases level, 0
  {
    if level < TOP && Mapping(at, Unit(level)) in ms then Page
    else if level == 0 then Absent
    else Table(Build(level - 1, at, ms))
  }

  /** A mapping of the size of an entry, at a place where such an entry can be. */
  ghost predicate Proper(m: Mapping) {
    Canonical(m.start) && exists level: nat :: level < TOP && m.size == Unit(level) && MultipleOf(m.start, level)
  }

  predicate Disjoint(m: Mapping, m': Mapping) {
    End(m) <= m'.start || End(m') <= m.start
  }

  ghost predicate Mappable(ms: set<Mapping>) {
    && (forall m :: m in ms ==> Proper(m))
    && (forall m, m' :: m in ms && m' in ms && m != m' ==> Disjoint(m, m'))
  }

  /** The mappings that cover the address are no larger than an entry of the level. */
  ghost predicate NoLarger(ms: set<Mapping>, level: nat, x: nat) {
    forall m :: m in ms && Covers(m, x) ==> m.size <= Unit(level)
  }

  lemma {:induction false} UnitsRise(i: nat, j: nat)
    requires i < j
    ensures Unit(i) < Unit(j) && Unit(i) <= Unit(j - 1)
  {
    if i < j - 1 { UnitsRise(i, j - 1); }
  }

  lemma SameMultiple(a: nat, b: nat, u: nat)
    requires u > 0 && a % u == 0 && b % u == 0 && a < b + u && b < a + u
    ensures a == b
  {
    MultipleIs(a, u);
    MultipleIs(b, u);
    var d := a / u - b / u;
    assert d * u == (a / u) * u - (b / u) * u;
    if d != 0 { LargeMultiple(d, u); }
  }

  /** A mapping that covers an address of an entry and is as large as the entry is the whole entry. */
  lemma WholeEntry(m: Mapping, level: nat, at: nat, x: nat)
    requires Proper(m) && level <= TOP && MultipleOf(at, level) && at <= x < at + Unit(level) && Covers(m, x)
    requires m.size <= Unit(level)
    ensures if level < TOP && m.size == Unit(level) then m == Mapping(at, Unit(level))
      else level > 0 && m.size <= Unit(level - 1)
  {
    var l: nat :| l < TOP && m.size == Unit(l) && MultipleOf(m.start, l);
    if l < level {
      UnitsRise(l, level);
    } else if level < l {
      UnitsRise(level, l);
    } else {
      SameMultiple(m.start, at, Unit(level));
    }
  }

  lemma SmallerBelow(ms: set<Mapping>, level: nat, at: nat, x: nat)
    requires Mappable(ms) && 0 < level <= TOP && MultipleOf(at, level) && at <= x < at + Unit(level)
    requires NoLarger(ms, level, x)
    requires level < TOP ==> Mapping(at, Unit(level)) !in ms
    ensures NoLarger(ms, level - 1, x)
  {
    forall m | m in ms && Covers(m, x) ensures m.size <= Unit(level - 1) {
      WholeEntry(m, level, at, x);
    }
  }

  lemma {:induction false} BuiltEntry(level: nat, at: nat, ms: set<Mapping>, x: nat, m: Mapping)
    requires Mappable(ms) && level <= TOP && MultipleOf(at, level) && at <= x < at + Unit(level)
    requires NoLarger(ms, level, x)
    requires level > 0 ==> TableAt(level - 1, at)
    ensures ResolveEntry(level, BuildEntry(level, at, ms), at, x) == Some(m) <==> m in ms && Covers(m, x)
    decreases level, 0
  {
    var whole := Mapping(at, Unit(level));
    if level < TOP && whole in ms {
      assert Covers(whole, x);
    } else if level == 0 {
      if m in ms && Covers(m, x) { WholeEntry(m, level, at, x); }
    } else {
      SmallerBelow(ms, level, at, x);
      BuiltTable(level - 1, at, ms, x, m);
    }
  }

  lemma {:induction false} BuiltTable(level: nat, at: nat, ms: set<Mapping>, x: nat, m: Mapping)
    requires Mappable(ms) && level <= TOP && TableAt(level, at) && InTable(level, at, x) && NoLarger(ms, level, x)
    ensures Resolve(level, Build(level, at, ms), at, x) == Some(m) <==> m in ms && Covers(m, x)
    decreases level, 1
  {
    var i := IndexAt(level, x);
    var virt := Start(level, at, i);
    EntryOf(level, at, x);
    EntryMultiple(level, at, i);
    if level > 0 { SubTableAt(level, at, i); }
    BuiltEntry(level, virt, ms, x, m);
  }

  lemma EntryMultiple(level: nat, at: nat, i: nat)
    requires level <= TOP && TableAt(level, at) && i < ENTRIES
    ensures MultipleOf(Start(level, at, i), level)
  {
    if level == TOP {
      UnitValues();
    } else {
      MultipleStep(at, i, Unit(level));
    }
  }

  /** The tables built for a set of mappings enumerate exactly those of the range. */
  lemma BuiltEnumerated(ms: set<Mapping>, start: nat, end: nat, m: Mapping)
    requires Mappable(ms)
    ensures m in Enumerated(Build(TOP, 0, ms), start, end) <==> m in ms && Walked(start, end, m.start)
  {
    var pml4 := Build(TOP, 0, ms);
    if m in Enumerated(pml4, start, end) {
      EnumeratedInOrder(pml4, start, end);
      assert Covers(m, m.start);
      EnumeratedWalked(pml4, start, end, m.start, m);
    }
    if Walked(start, end, m.start) {
      SizesSmall(ms, m.start);
      EnumeratedExact(pml4, start, end, m.start, m);
      BuiltTable(TOP, 0, ms, m.start, m);
      if m in ms { ProperCovers(m); }
    }
  }

  lemma ProperCovers(m: Mapping)
    requires Proper(m)
    ensures Covers(m, m.start) && m.size <= Unit(TOP)
  {
    var level: nat :| level < TOP && m.size == Unit(level) && MultipleOf(m.start, level);
    UnitsRise(level, TOP);
  }

  lemma SizesSmall(ms: set<Mapping>, x: nat)
    requires Mappable(ms)
    ensures NoLarger(ms, TOP, x)
  {
    forall m | m in ms && Covers(m, x) ensures m.size <= Unit(TOP) {
      ProperCovers(m);
    }
  }
}
