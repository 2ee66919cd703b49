/** What the search for unmapped pages returns for page tables, with pages of all sizes. */
module GapTables {
  import opened Options
  import opened Pages
  import opened PageTables
  import opened PageLookup
  import opened PageBuild
  import opened GapSearch
  import opened GapLimits
  import opened PageWalk

  /** The mappings that a search is about: from the base on. */
  function InRegion(pml4: seq<Entry>, base: nat, limit: nat): seq<nat>
    requires Sound(TOP, pml4)
  {
    From(Seen(pml4, base, limit), base)
  }

  /** None of the pages found that are walked at all is mapped. */
  ghost predicate AllFree(pml4: seq<Entry>, base: nat, limit: nat, nPages: nat, r: nat)
    requires Sound(TOP, pml4)
  {
    forall j: nat :: j < nPages ==> PageFree(pml4, base, limit, r + PAGE * j)
  }

  predicate PageFree(pml4: seq<Entry>, base: nat, limit: nat, x: nat)
    requires Sound(TOP, pml4)
  {
    Walked(base, limit, x) ==> Resolve(TOP, pml4, 0, x).None?
  }

  /** No mapping begins before `r` and ends after it. */
  ghost predicate NoneAcross(ms: seq<Mapping>, r: nat) {
    forall m :: m in ms ==> !(m.start < r < End(m))
  }

  lemma InRegionRegion(pml4: seq<Entry>, base: nat, limit: nat)
    requires Sound(TOP, pml4) && Aligned(base) && base < WORD
    ensures Region(InRegion(pml4, base, limit), base)
    ensures forall m :: m in Enumerated(pml4, base, limit) && m.start >= base ==> m.start in InRegion(pml4, base, limit)
  {
    var pages, ms := Seen(pml4, base, limit), Enumerated(pml4, base, limit);
    EnumeratedInOrder(pml4, base, limit);
    Skipped(pages, base);
    var k := |pages| - |From(pages, base)|;
    forall m | m in ms && m.start >= base ensures m.start in InRegion(pml4, base, limit) {
      var i :| 0 <= i < |ms| && ms[i] == m;
      assert pages[i] == m.start && i >= k;
      assert pages[k..][i - k] == pages[i];
    }
  }

  /** A mapping that covers a page found begins before the first of them. */
  lemma CoveringBefore(m: seq<nat>, base: nat, nPages: nat, r: nat, j: nat, mapping: Mapping)
    requires Behind(m, nPages, r) && r >= base + PAGE && j < nPages && r + PAGE * nPages <= WORD
    requires Covers(mapping, r + PAGE * j) && (mapping.start >= base ==> mapping.start in m)
    ensures mapping.start < r < End(mapping)
  {
    if mapping.start >= base {
      var i: nat :| i < |m| && m[i] == mapping.start;
      assert Beside(m, r, i, j);
      assert (r + PAGE * j) % WORD == r + PAGE * j;
    }
  }

  /**
   For every page table: the pages found are all unmapped if and only if no mapping reaches over the
   first of them. The search looks at the beginnings of mappings only.
   */
  lemma FreeIff(pml4: seq<Entry>, base: nat, limit: nat, nPages: nat, r: nat)
    requires Sound(TOP, pml4) && Aligned(base) && base < WORD && base != limit && nPages < WORD - 1
    requires r == Result(InRegion(pml4, base, limit), base, limit, nPages) && r != 0 && r + PAGE * nPages <= WORD
    ensures AllFree(pml4, base, limit, nPages, r) <==> nPages == 0 || NoneAcross(Enumerated(pml4, base, limit), r)
  {
    var m, ms := InRegion(pml4, base, limit), Enumerated(pml4, base, limit);
    InRegionRegion(pml4, base, limit);
    FoundBehind(m, base, limit, nPages, r);
    if nPages > 0 && !NoneAcross(ms, r) {
      var mapping :| mapping in ms && mapping.start < r < End(mapping);
      EnumeratedWalked(pml4, base, limit, r, mapping);
      EnumeratedExact(pml4, base, limit, r, mapping);
      assert !PageFree(pml4, base, limit, r + PAGE * 0);
    }
    if NoneAcross(ms, r) {
      forall j: nat | j < nPages ensures PageFree(pml4, base, limit, r + PAGE * j) {
        FreeAt(pml4, base, limit, nPages, r, j);
      }
    }
  }

  lemma FreeAt(pml4: seq<Entry>, base: nat, limit: nat, nPages: nat, r: nat, j: nat)
    requires Sound(TOP, pml4) && Aligned(base) && base < WORD && NoneAcross(Enumerated(pml4, base, limit), r)
    requires Behind(InRegion(pml4, base, limit), nPages, r) && r >= base + PAGE && j < nPages
    requires r + PAGE * nPages <= WORD
    ensures PageFree(pml4, base, limit, r + PAGE * j)
  {
    var x := r + PAGE * j;
    if Walked(base, limit, x) && Resolve(TOP, pml4, 0, x).Some? {
      var mapping := Resolve(TOP, pml4, 0, x).value;
      EnumeratedExact(pml4, base, limit, x, mapping);
      InRegionRegion(pml4, base, limit);
      CoveringBefore(InRegion(pml4, base, limit), base, nPages, r, j, mapping);
    }
  }

  // ----- tables on which the search fails

  const LAST_USER_PAGE := 0x7fff_ffff_f000
  const LARGE := 0x20_0000 // a large page of that size, at that address

  lemma UserWalked(x: nat)
    ensures Walked(USER_BASE, USER_LIMIT, x) <==> x <= USER_LIMIT
  {
    UnitValues();
  }

  lemma Third(s: seq<nat>, a: nat, b: nat)
    requires Ascending(s)
    ensures |s| > 2 ==> exists i :: 0 <= i < |s| && s[i] != a && s[i] != b
  {
    if |s| > 2 {
      assert s[0] < s[1] < s[2];
      var i := if s[0] != a && s[0] != b then 0 else if s[1] != a && s[1] != b then 1 else 2;
      assert s[i] != a && s[i] != b;
    }
  }

  lemma TwoOnly(s: seq<nat>, a: nat, b: nat)
    requires Ascending(s) && a < b && a in s && b in s && forall i :: 0 <= i < |s| ==> s[i] == a || s[i] == b
    ensures s == [a, b]
  {
    assert |s| >= 2;
    assert s[0] < s[1];
    assert s[0] == a && s[1] == b;
    Third(s, a, b);
  }

  lemma Skips(s: seq<nat>, base: nat)
    requires s == [] || s[0] >= base
    ensures From(s, base) == s
  {
  }

  /** Tables with two mappings in the region of user processes, and what the search sees of them. */
  lemma TwoMappings(m: Mapping, m': Mapping)
    requires Mappable({m, m'}) && USER_BASE <= m.start < m'.start <= USER_LIMIT
    ensures InRegion(Build(TOP, 0, {m, m'}), USER_BASE, USER_LIMIT) == [m.start, m'.start]
  {
    var pml4 := Build(TOP, 0, {m, m'});
    var ms := Enumerated(pml4, USER_BASE, USER_LIMIT);
    var pages := Starts(ms);
    EnumeratedInOrder(pml4, USER_BASE, USER_LIMIT);
    UserWalked(m.start);
    UserWalked(m'.start);
    BuiltEnumerated({m, m'}, USER_BASE, USER_LIMIT, m);
    BuiltEnumerated({m, m'}, USER_BASE, USER_LIMIT, m');
    forall i | 0 <= i < |pages| ensures pages[i] == m.start || pages[i] == m'.start {
      BuiltEnumerated({m, m'}, USER_BASE, USER_LIMIT, ms[i]);
    }
    StartIn(ms, m);
    StartIn(ms, m');
    TwoOnly(pages, m.start, m'.start);
    Skips(pages, USER_BASE);
  }

  lemma StartIn(ms: seq<Mapping>, m: Mapping)
    requires m in ms
    ensures m.start in Starts(ms)
  {
    var i :| 0 <= i < |ms| && ms[i] == m;
    assert Starts(ms)[i] == m.start;
  }

  lemma SmallPage(start: nat)
    requires Canonical(start) && Aligned(start)
    ensures Proper(Mapping(start, PAGE))
  {
    assert Unit(0) == PAGE && MultipleOf(start, 0);
  }

  lemma LargePage(start: nat)
    requires Canonical(start) && start % LARGE == 0
    ensures Proper(Mapping(start, LARGE))
  {
    UnitValues();
    assert MultipleOf(start, 1);
  }

  /**
   In a user process with its first and its last page mapped, 2^35 pages do not fit between them, and
   the search returns the address behind the limit.
   */
  lemma PastLimitWitness()
    ensures var pml4 := Build(TOP, 0, {Mapping(USER_BASE, PAGE), Mapping(LAST_USER_PAGE, PAGE)});
      Result(InRegion(pml4, USER_BASE, USER_LIMIT), USER_BASE, USER_LIMIT, 0x8_0000_0000) == USER_LIMIT + 1
  {
    SmallPage(USER_BASE);
    SmallPage(LAST_USER_PAGE);
    TwoMappings(Mapping(USER_BASE, PAGE), Mapping(LAST_USER_PAGE, PAGE));
    PastLimit([USER_BASE, LAST_USER_PAGE], 0x8_0000_0000);
  }

  lemma PastLimit(m: seq<nat>, nPages: nat)
    requires m == [USER_BASE, LAST_USER_PAGE] && nPages == 0x8_0000_0000
    ensures Result(m, USER_BASE, USER_LIMIT, nPages) == USER_LIMIT + 1
  {
    assert !Wide(m[0], USER_BASE, nPages) && !Wide(m[1], m[0], nPages) && m[1..] == [LAST_USER_PAGE];
    assert m[1..][1..] == [];
    assert Stop(m[1..], m[0], nPages) == 1;
    assert Stop(m, USER_BASE, nPages) == 2;
    assert Wide(m[0], LAST_USER_PAGE, nPages);
  }

  /** In a user process with a large page at 2 MiB, 1024 pages are found inside it. */
  lemma HugeWitness()
    ensures var pml4 := Build(TOP, 0, {Mapping(LARGE, LARGE), Mapping(LAST_USER_PAGE, PAGE)});
      && Result(InRegion(pml4, USER_BASE, USER_LIMIT), USER_BASE, USER_LIMIT, 1024) == LARGE + PAGE
      && Resolve(TOP, pml4, 0, LARGE + PAGE) == Some(Mapping(LARGE, LARGE))
  {
    var large, last := Mapping(LARGE, LARGE), Mapping(LAST_USER_PAGE, PAGE);
    LargePage(LARGE);
    SmallPage(LAST_USER_PAGE);
    TwoMappings(large, last);
    InsideLarge([LARGE, LAST_USER_PAGE], 1024);
    SizesSmall({large, last}, LARGE + PAGE);
    BuiltTable(TOP, 0, {large, last}, LARGE + PAGE, large);
  }

  lemma InsideLarge(m: seq<nat>, nPages: nat)
    requires m == [LARGE, LAST_USER_PAGE] && nPages == 1024
    ensures Result(m, USER_BASE, USER_LIMIT, nPages) == LARGE + PAGE
  {
    assert !Wide(m[0], USER_BASE, nPages) && Wide(m[1], m[0], nPages) && m[1..] == [LAST_USER_PAGE];
    assert Stop(m[1..], m[0], nPages) == 0;
  }
}
