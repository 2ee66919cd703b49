/** Where the result of the search for unmapped pages lies, and how it meets mappings larger than a page. */
module GapLimits {
  import opened Pages
  import opened GapSearch

  /** The pages lie inside the region. */
  predicate Within(base: nat, limit: nat, nPages: nat, r: nat) {
    base <= r && r + PAGE * nPages <= limit + 1
  }

  /** The room above the highest mapped page ends below the limit. */
  predicate RoomOnTop(m: seq<nat>, limit: nat, nPages: nat) {
    m != [] && m[|m| - 1] + PAGE * (nPages + 1) <= limit + 1
  }

  ghost predicate GapWithin(m: seq<nat>, base: nat, limit: nat, nPages: nat) {
    exists a: nat :: Gap(m, base, nPages, a) && a + PAGE * nPages <= limit + 1
  }

  ghost predicate NoGap(m: seq<nat>, base: nat, nPages: nat) {
    forall a: nat :: !Gap(m, base, nPages, a)
  }

  /**
   The pages found lie inside the region if and only if some gap does or, where there is no gap at
   all, the room above the highest mapped page does.
   */
  lemma WithinIff(m: seq<nat>, base: nat, limit: nat, nPages: nat, r: nat)
    requires Region(m, base) && nPages < WORD - 1 && base != limit && r == Result(m, base, limit, nPages) && r != 0
    ensures Within(base, limit, nPages, r) <==>
      GapWithin(m, base, limit, nPages) || (NoGap(m, base, nPages) && RoomOnTop(m, limit, nPages))
  {
    PassOne(m, base, nPages);
    if Stop(m, base, nPages) < |m| {
      InGap(m, base, limit, nPages, r);
      assert LowestGap(m, base, nPages, r);
    } else {
      OnTop(m, base, limit, nPages, r);
      assert r == (m[|m| - 1] + PAGE) % WORD;
      NoWrap(m[|m| - 1], r);
    }
  }

  lemma NoWrap(last: nat, r: nat)
    requires last < WORD && Aligned(last) && r == (last + PAGE) % WORD && r != 0
    ensures r == last + PAGE
  {
  }

  /** Mappings of the given sizes begin at the pages enumerated and do not overlap. */
  ghost predicate Extents(m: seq<nat>, size: nat -> nat) {
    forall i, j :: 0 <= i < j < |m| ==> m[i] + size(m[i]) <= m[j]
  }

  /** Page number `j` of those found is inside mapping `i`. */
  predicate Covered(m: seq<nat>, size: nat -> nat, r: nat, i: nat, j: nat) {
    i < |m| && m[i] <= (r + PAGE * j) % WORD < m[i] + size(m[i])
  }

  /** None of the pages is inside a mapping. */
  ghost predicate Clear(m: seq<nat>, size: nat -> nat, r: nat, nPages: nat) {
    forall i: nat, j: nat :: j < nPages ==> !Covered(m, size, r, i, j)
  }

  /** The page before the result begins a mapping of more than one page. */
  predicate BehindHuge(m: seq<nat>, size: nat -> nat, r: nat) {
    r >= PAGE && r - PAGE in m && size(r - PAGE) > PAGE
  }

  /** The pages found meet a mapping if and only if they begin inside a larger one: only its first page was seen. */
  lemma ClearIff(m: seq<nat>, size: nat -> nat, base: nat, limit: nat, nPages: nat, r: nat)
    requires Region(m, base) && nPages < WORD - 1 && base != limit && r == Result(m, base, limit, nPages) && r != 0
    requires Extents(m, size)
    ensures Clear(m, size, r, nPages) <==> nPages == 0 || !BehindHuge(m, size, r)
  {
    FoundBehind(m, base, limit, nPages, r);
    BehindClear(m, size, nPages, r);
  }

  lemma BehindClear(m: seq<nat>, size: nat -> nat, nPages: nat, r: nat)
    requires Ascending(m) && Extents(m, size) && Behind(m, nPages, r)
    ensures Clear(m, size, r, nPages) <==> nPages == 0 || !BehindHuge(m, size, r)
  {
    if nPages > 0 && BehindHuge(m, size, r) {
      var i: nat :| i < |m| && m[i] == r - PAGE;
      assert Covered(m, size, r, i, 0);
    } else {
      forall i: nat, j: nat | j < nPages ensures !Covered(m, size, r, i, j) {
        if i < |m| { NotCovered(m, size, nPages, r, i, j); }
      }
    }
  }

  /** Every page found is below all mapped pages, or between the one before the result and the next. */
  ghost predicate Behind(m: seq<nat>, nPages: nat, r: nat) {
    && PAGE <= r < WORD
    && forall i: nat, j: nat {:trigger Beside(m, r, i, j)} :: i < |m| && j < nPages ==> Beside(m, r, i, j)
  }

  /** A mapped page begins above a page found, or not above the page before the result. */
  predicate Beside(m: seq<nat>, r: nat, i: nat, j: nat)
    requires i < |m|
  {
    var p := (r + PAGE * j) % WORD;
    p < m[i] || (p >= r && m[i] <= r - PAGE && (m[i] < r - PAGE ==> r - PAGE in m))
  }

  lemma FoundBehind(m: seq<nat>, base: nat, limit: nat, nPages: nat, r: nat)
    requires Region(m, base) && nPages < WORD - 1 && base != limit && r == Result(m, base, limit, nPages) && r != 0
    ensures Behind(m, nPages, r) && r >= base + PAGE
  {
    PassOne(m, base, nPages);
    if Stop(m, base, nPages) < |m| {
      InGap(m, base, limit, nPages, r);
      GapBehind(m, base, nPages, r, Stop(m, base, nPages));
    } else {
      PassTwo(m, base, nPages);
      OnTop(m, base, limit, nPages, r);
      NoWrap(m[|m| - 1], r);
      TopBehind(m, base, nPages, r);
    }
  }

  lemma GapBehind(m: seq<nat>, base: nat, nPages: nat, r: nat, k: nat)
    requires Region(m, base) && nPages < WORD - 1 && k < |m| && r == Before(m, base, k) + PAGE
    requires Gap(m, base, nPages, r)
    ensures Behind(m, nPages, r)
  {
    forall i: nat, j: nat | i < |m| && j < nPages ensures Beside(m, r, i, j) {
      PastRun(m, r, nPages, |m| - 1);
      assert (r + PAGE * j) % WORD == r + PAGE * j;
      if m[i] >= r {
        PastRun(m, r, nPages, i);
      } else {
        NextPage(m[i], r);
        if k == 0 { assert m[i] == base; } else { assert m[k - 1] in m; }
      }
    }
  }

  lemma TopBehind(m: seq<nat>, base: nat, nPages: nat, r: nat)
    requires Region(m, base) && RoomAround(m, nPages) && r == m[|m| - 1] + PAGE && r < WORD
    ensures Behind(m, nPages, r)
  {
    assert m[|m| - 1] in m;
    forall i: nat, j: nat | i < |m| && j < nPages ensures Beside(m, r, i, j) {
      var p := (r + PAGE * j) % WORD;
      assert p == r + PAGE * j || p == r + PAGE * j - WORD;
      assert p >= r || p < m[0];
    }
  }

  lemma NotCovered(m: seq<nat>, size: nat -> nat, nPages: nat, r: nat, i: nat, j: nat)
    requires Ascending(m) && Extents(m, size) && Behind(m, nPages, r) && !BehindHuge(m, size, r) && i < |m|
    requires j < nPages
    ensures !Covered(m, size, r, i, j)
  {
    assert Beside(m, r, i, j);
    if m[i] < r - PAGE && (r + PAGE * j) % WORD >= m[i] {
      var l: nat :| l < |m| && m[l] == r - PAGE;
      assert i < l;
    }
  }
}
