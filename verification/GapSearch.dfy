/**
 The search for unmapped virtual pages. The mapped pages are enumerated in ascending order and a
 callback looks at the distance between neighbouring mapped pages, in 64-bit arithmetic.
 */
module GapSearch {
  import opened Pages

  const USER_BASE := 0x1000
  const USER_LIMIT := 0x7fff_ffff_ffff
  const KERNEL_BASE := 0xffff_ffff_0000_0000 - 0x1000
  const KERNEL_LIMIT := 0xffff_ffff_ffff_c000

  /** The mapped pages the callback does not skip. */
  function From(pages: seq<nat>, base: nat): (m: seq<nat>)
    ensures m <= pages || |m| < |pages|
  {
    if pages == [] || pages[0] >= base then pages else From(pages[1..], base)
  }

  /** The callback's distance test, for unsigned 64-bit operands. */
  predicate Wide(virt: nat, last: nat, nPages: nat) {
    (if virt >= last then virt - last else WORD + virt - last) >= PAGE * if nPages + 1 == WORD then 0 else nPages + 1
  }

  lemma WideInWords(virt: nat, last: nat, nPages: nat)
    requires virt < WORD && last < WORD && nPages < WORD
    ensures Wide(virt, last, nPages) <==> (virt - last) % WORD / PAGE >= (nPages + 1) % WORD
  {
    var d := if virt >= last then virt - last else WORD + virt - last;
    assert d == (virt - last) % WORD;
  }

  /** The index of the first page the callback stops at, given the page seen before. */
  function Stop(m: seq<nat>, last: nat, nPages: nat): (k: nat)
    ensures k <= |m|
  {
    if m == [] || Wide(m[0], last, nPages) then 0 else 1 + Stop(m[1..], m[0], nPages)
  }

  lemma {:induction false} StopIsWide(m: seq<nat>, last: nat, nPages: nat)
    ensures var k := Stop(m, last, nPages); k < |m| ==> Wide(m[k], Before(m, last, k), nPages)
  {
    if m != [] && !Wide(m[0], last, nPages) { StopIsWide(m[1..], m[0], nPages); }
  }

  lemma {:induction false} StopIsFirst(m: seq<nat>, last: nat, nPages: nat, i: nat)
    requires i < |m| && Wide(m[i], Before(m, last, i), nPages)
    ensures Stop(m, last, nPages) <= i
  {
    if i > 0 && !Wide(m[0], last, nPages) {
      assert m[1..][i - 1] == m[i] && Before(m[1..], m[0], i - 1) == Before(m, last, i);
      StopIsFirst(m[1..], m[0], nPages, i - 1);
    }
  }

  /** The page before index `i`, or `last` for the first one. */
  function Before(m: seq<nat>, last: nat, i: nat): nat
    requires i <= |m|
  {
    if i == 0 then last else m[i - 1]
  }

  class Search {
    const base: nat
    const nPages: nat
    var ret: nat
    var lastAddress: nat

    constructor (base: nat, limit: nat, nPages: nat)
      ensures this.base == base && this.nPages == nPages && ret == limit && lastAddress == base
    {
      this.base, this.nPages, ret, lastAddress := base, nPages, limit, base;
    }

    method Callback(virt: nat) returns (more: bool)
      requires virt < WORD && lastAddress < WORD && nPages < WORD
      modifies this
      ensures more <==> virt < base || !Wide(virt, old(lastAddress), nPages)
      ensures ret == if more then old(ret) else old(lastAddress)
      ensures lastAddress == if more && virt >= base then virt else old(lastAddress)
    {
      if virt < base {
        return true;
      }
      WideInWords(virt, lastAddress, nPages);
      if (virt - lastAddress) % WORD / PAGE >= (nPages + 1) % WORD {
        ret := lastAddress;
        return false;
      }
      lastAddress := virt;
      return true;
    }
  }

  datatype Scan = Scan(last: nat, stopped: bool)

  /** The last address after the callback was called on `pages` in turn until it stopped. */
  function Scanned(pages: seq<nat>, base: nat, last: nat, nPages: nat): Scan {
    if pages == [] then Scan(last, false)
    else if pages[0] < base then Scanned(pages[1..], base, last, nPages)
    else if Wide(pages[0], last, nPages) then Scan(last, true)
    else Scanned(pages[1..], base, pages[0], nPages)
  }

  lemma {:induction false} ScannedStops(pages: seq<nat>, base: nat, last: nat, nPages: nat)
    requires Ascending(pages)
    ensures var m := From(pages, base); var k := Stop(m, last, nPages);
      Scanned(pages, base, last, nPages) == Scan(Before(m, last, k), k < |m|)
  {
    if pages != [] {
      var rest := pages[1..];
      assert Ascending(rest);
      if pages[0] < base {
        ScannedStops(rest, base, last, nPages);
      } else if !Wide(pages[0], last, nPages) {
        assert From(rest, base) == rest by { assert rest != [] ==> pages[0] < rest[0]; }
        ScannedStops(rest, base, pages[0], nPages);
      }
    }
  }

  lemma {:induction false} Skipped(pages: seq<nat>, base: nat)
    requires Ascending(pages)
    ensures var m := From(pages, base); var k := |pages| - |m|;
      && 0 <= k && m == pages[k..] && Ascending(m)
      && (forall i :: 0 <= i < k ==> pages[i] < base)
      && (forall i :: k <= i < |pages| ==> pages[i] >= base)
  {
    if pages != [] && pages[0] < base {
      var rest := pages[1..];
      assert forall i :: 0 <= i < |rest| ==> rest[i] == pages[i + 1];
      Skipped(rest, base);
    }
  }

  /** The pages from `a` on, wrapping at 2^64, are not mapped. */
  ghost predicate Unmapped(m: seq<nat>, a: nat, nPages: nat) {
    forall j: nat :: j < nPages ==> (a + PAGE * j) % WORD !in m
  }

  /** A gap: unmapped pages above the base page and below some mapped page. */
  ghost predicate Gap(m: seq<nat>, base: nat, nPages: nat, a: nat) {
    && Aligned(a) && a >= base + PAGE && Unmapped(m, a, nPages)
    && m != [] && m[|m| - 1] >= a + PAGE * nPages
  }

  ghost predicate LowestGap(m: seq<nat>, base: nat, nPages: nat, a: nat) {
    Gap(m, base, nPages, a) && forall b: nat :: Gap(m, base, nPages, b) ==> a <= b
  }

  /** There is room between the highest mapped page and, past 2^64, the lowest. */
  predicate RoomAround(m: seq<nat>, nPages: nat) {
    |m| >= 2 && WORD + m[0] - m[|m| - 1] >= PAGE * (nPages + 1)
  }

  /** The mapped pages in play: in ascending order and not below the base of the region. */
  ghost predicate Region(m: seq<nat>, base: nat) {
    Ascending(m) && Aligned(base) && base < WORD && forall i :: 0 <= i < |m| ==> m[i] >= base
  }

  lemma BeforeBelow(m: seq<nat>, base: nat, i: nat)
    requires Region(m, base) && i < |m|
    ensures base <= Before(m, base, i) <= m[i] && Aligned(Before(m, base, i))
  {
  }

  lemma NextPage(a: nat, b: nat)
    requires Aligned(a) && Aligned(b) && a < b
    ensures a + PAGE <= b
  {
  }

  lemma SamePage(a: nat, b: nat, n: nat)
    requires Aligned(a) && Aligned(b) && a <= b < a + PAGE * n
    ensures exists j: nat :: j < n && b == a + PAGE * j
  {
    var j := (b - a) / PAGE;
    assert j < n && b == a + PAGE * j;
  }

  /** A wide step of the enumeration is a gap. */
  lemma WideIsGap(m: seq<nat>, base: nat, nPages: nat, i: nat)
    requires Region(m, base) && nPages < WORD - 1 && i < |m| && Wide(m[i], Before(m, base, i), nPages)
    ensures Gap(m, base, nPages, Before(m, base, i) + PAGE)
  {
    var last := Before(m, base, i);
    BeforeBelow(m, base, i);
    forall j: nat | j < nPages ensures (last + PAGE + PAGE * j) % WORD !in m {
      var p := last + PAGE + PAGE * j;
      assert last < p < m[i] && p % WORD == p;
      assert forall l :: 0 <= l < |m| && m[l] == p ==> i <= l || l <= i - 1;
    }
  }

  /** The first mapped page at or above `a`. */
  function Above(m: seq<nat>, a: nat): (l: nat)
    requires m != [] && m[|m| - 1] >= a
    ensures l < |m| && m[l] >= a && forall i :: 0 <= i < l ==> m[i] < a
  {
    if m[0] >= a then 0
    else assert forall i :: 0 < i < |m| ==> m[1..][i - 1] == m[i]; 1 + Above(m[1..], a)
  }

  lemma PastRun(m: seq<nat>, a: nat, nPages: nat, i: nat)
    requires Ascending(m) && Aligned(a) && Unmapped(m, a, nPages) && i < |m| && m[i] >= a
    ensures m[i] >= a + PAGE * nPages
  {
    forall j: nat | j < nPages ensures m[i] != a + PAGE * j {
      assert (a + PAGE * j) % WORD !in m;
    }
    if m[i] < a + PAGE * nPages { SamePage(a, m[i], nPages); }
  }

  /** Every gap lies behind a wide step. */
  lemma GapIsWide(m: seq<nat>, base: nat, nPages: nat, a: nat)
    requires Region(m, base) && nPages < WORD - 1 && Gap(m, base, nPages, a)
    ensures exists i :: 0 <= i < |m| && Wide(m[i], Before(m, base, i), nPages) && Before(m, base, i) + PAGE <= a
  {
    var i := Above(m, a);
    var last := Before(m, base, i);
    BeforeBelow(m, base, i);
    PastRun(m, a, nPages, i);
    NextPage(last, a);
    assert Wide(m[i], Before(m, base, i), nPages);
  }

  /** Where the first pass stops is the lowest gap, and it stops nowhere if there is none. */
  lemma PassOne(m: seq<nat>, base: nat, nPages: nat)
    requires Region(m, base) && nPages < WORD - 1
    ensures var k := Stop(m, base, nPages);
      if k < |m| then LowestGap(m, base, nPages, Before(m, base, k) + PAGE)
      else forall a: nat :: !Gap(m, base, nPages, a)
  {
    var k := Stop(m, base, nPages);
    if k < |m| { StopIsWide(m, base, nPages); WideIsGap(m, base, nPages, k); }
    forall a: nat | Gap(m, base, nPages, a) ensures k < |m| && Before(m, base, k) + PAGE <= a {
      StopBelow(m, base, nPages, a);
    }
  }

  lemma StopBelow(m: seq<nat>, base: nat, nPages: nat, a: nat)
    requires Region(m, base) && nPages < WORD - 1 && Gap(m, base, nPages, a)
    ensures var k := Stop(m, base, nPages); k < |m| && Before(m, base, k) + PAGE <= a
  {
    GapIsWide(m, base, nPages, a);
    var i: nat :| 0 <= i < |m| && Wide(m[i], Before(m, base, i), nPages) && Before(m, base, i) + PAGE <= a;
    StopIsFirst(m, base, nPages, i);
    BeforeRises(m, base, Stop(m, base, nPages), i);
  }

  lemma BeforeRises(m: seq<nat>, base: nat, k: nat, i: nat)
    requires Region(m, base) && k <= i < |m|
    ensures Before(m, base, k) <= Before(m, base, i)
  {
  }

  /** Without a gap the second pass stops at the lowest page, if there is room around the top. */
  lemma PassTwo(m: seq<nat>, base: nat, nPages: nat)
    requires Region(m, base) && nPages < WORD - 1 && Stop(m, base, nPages) == |m|
    ensures var last := Before(m, base, |m|);
      Stop(m, last, nPages) == if RoomAround(m, nPages) then 0 else |m|
  {
    if |m| == 1 { assert m[|m| - 1] == m[0]; }
  }

  /** If the gap found begins at the limit, the second pass finds the limit again, or nothing. */
  lemma LimitAgain(m: seq<nat>, base: nat, nPages: nat)
    requires Region(m, base) && Stop(m, base, nPages) < |m|
    ensures var k := Stop(m, base, nPages);
      var last := Before(m, base, k);
      k > 0 ==> Before(m, last, Stop(m, last, nPages)) == last
  {
  }

  lemma AroundUnmapped(m: seq<nat>, base: nat, nPages: nat)
    requires Region(m, base) && RoomAround(m, nPages)
    ensures Unmapped(m, m[|m| - 1] + PAGE, nPages) && Unmapped(m, (m[|m| - 1] + PAGE) % WORD, nPages)
  {
    var a := m[|m| - 1] + PAGE;
    forall j: nat | j < nPages ensures (a + PAGE * j) % WORD !in m && (a % WORD + PAGE * j) % WORD !in m {
      var p := (a + PAGE * j) % WORD;
      assert p == a + PAGE * j || p == a + PAGE * j - WORD;
      assert p > m[|m| - 1] || p < m[0];
    }
  }

  /**
   What the search returns: the lowest gap, or without gaps the page above the highest mapped one.
   A gap that begins above the limit itself is taken for no gap at all.
   */
  ghost predicate Found(m: seq<nat>, base: nat, limit: nat, nPages: nat, r: nat) {
    || (exists a: nat :: LowestGap(m, base, nPages, a) && r == if a == limit + PAGE then 0 else a)
    || ((forall a: nat :: !Gap(m, base, nPages, a)) && r == Top(m, limit, nPages))
  }

  function Top(m: seq<nat>, limit: nat, nPages: nat): nat {
    if RoomAround(m, nPages) && m[|m| - 1] != limit then (m[|m| - 1] + PAGE) % WORD else 0
  }

  /** For the largest count the number of pages needed wraps to 0, and any distance will do. */
  lemma CountWraps(m: seq<nat>, base: nat, limit: nat, nPages: nat, r: nat)
    requires Region(m, base) && nPages + 1 == WORD && base != limit && base + PAGE < WORD
    requires r == Result(m, base, limit, nPages)
    ensures r == if m == [] then 0 else base + PAGE
    ensures r != 0 ==> !Unmapped(m, r, nPages)
  {
    if m != [] {
      var p := m[0];
      var j := (if p >= r then p - r else WORD + p - r) / PAGE;
      assert (r + PAGE * j) % WORD == p;
    }
  }

  /** The two passes together. */
  lemma SearchFinds(m: seq<nat>, base: nat, limit: nat, nPages: nat, r: nat)
    requires Region(m, base) && nPages < WORD - 1 && base != limit && r == Result(m, base, limit, nPages)
    ensures Found(m, base, limit, nPages, r) && (r != 0 ==> Unmapped(m, r, nPages))
  {
    PassOne(m, base, nPages);
    if Stop(m, base, nPages) < |m| {
      InGap(m, base, limit, nPages, r);
    } else {
      OnTop(m, base, limit, nPages, r);
    }
  }

  lemma InGap(m: seq<nat>, base: nat, limit: nat, nPages: nat, r: nat)
    requires Region(m, base) && nPages < WORD - 1 && base != limit && r == Result(m, base, limit, nPages)
    requires Stop(m, base, nPages) < |m|
    ensures var a := Before(m, base, Stop(m, base, nPages)) + PAGE; r == if a == limit + PAGE then 0 else a
  {
    var k := Stop(m, base, nPages);
    var last := Before(m, base, k);
    assert last + PAGE < WORD by { StopIsWide(m, base, nPages); StepBelow(m, base, nPages, k); }
    if last == limit {
      LimitAgain(m, base, nPages);
    }
  }

  lemma StepBelow(m: seq<nat>, base: nat, nPages: nat, i: nat)
    requires Region(m, base) && nPages < WORD - 1 && i < |m| && Wide(m[i], Before(m, base, i), nPages)
    ensures Before(m, base, i) + PAGE < WORD
  {
    BeforeBelow(m, base, i);
  }

  lemma OnTop(m: seq<nat>, base: nat, limit: nat, nPages: nat, r: nat)
    requires Region(m, base) && nPages < WORD - 1 && r == Result(m, base, limit, nPages)
    requires Stop(m, base, nPages) == |m|
    ensures r == Top(m, limit, nPages) && (r != 0 ==> Unmapped(m, r, nPages))
  {
    PassTwo(m, base, nPages);
    if RoomAround(m, nPages) { AroundUnmapped(m, base, nPages); }
  }

  /** The outcome of the two passes over the pages from `base` on. */
  function Result(m: seq<nat>, base: nat, limit: nat, nPages: nat): nat {
    var k := Stop(m, base, nPages);
    var last := Before(m, base, k);
    var again := Stop(m, last, nPages);
    if k < |m| && last != limit then (last + PAGE) % WORD
    else if again < |m| && Before(m, last, again) != limit then (Before(m, last, again) + PAGE) % WORD
    else 0
  }
}
