/** Order-preserving selection from sequences. */
module Selection {
  import opened Options
  import opened LinkedList

  function Filter<T>(s: seq<T>, pick: T -> bool): seq<T> {
    if s == [] then []
    else if pick(s[0]) then [s[0]] + Filter(s[1..], pick)
    else Filter(s[1..], pick)
  }

  /** The first element that matches. */
  function First<T>(s: seq<T>, wanted: T -> bool): Option<T> {
    if s == [] then None else if wanted(s[0]) then Some(s[0]) else First(s[1..], wanted)
  }

  lemma {:induction false} FilterMembers<T>(s: seq<T>, pick: T -> bool)
    ensures forall x :: x in Filter(s, pick) <==> x in s && pick(x)
  {
    if s != [] {
      FilterMembers(s[1..], pick);
      assert s == [s[0]] + s[1..];
    }
  }

  lemma {:induction false} FilterDistinct(s: seq<nat>, pick: nat -> bool)
    requires Distinct(s)
    ensures Distinct(Filter(s, pick))
  {
    if s != [] {
      assert Filter(s, pick) == Filter(s[1..], pick) || Filter(s, pick)[1..] == Filter(s[1..], pick);
      FilterDistinct(s[1..], pick);
      FilterMembers(s[1..], pick);
    }
  }

  lemma {:induction false} FilterAppend<T>(s: seq<T>, x: T, pick: T -> bool)
    ensures Filter(s + [x], pick) == if pick(x) then Filter(s, pick) + [x] else Filter(s, pick)
  {
    if s == [] {
      assert s + [x] == [x];
    } else {
      FilterAppend(s[1..], x, pick);
      assert (s + [x])[1..] == s[1..] + [x];
    }
  }

  lemma {:induction false} FilterSame<T>(s: seq<T>, pick: T -> bool, pick': T -> bool)
    requires forall i :: 0 <= i < |s| ==> pick(s[i]) == pick'(s[i])
    ensures Filter(s, pick) == Filter(s, pick')
  {
    if s != [] {
      FilterSame(s[1..], pick, pick');
    }
  }

  /** If only picked elements match, the first match of the selection is the first match of all. */
  lemma {:induction false} FirstOfFilter<T>(s: seq<T>, wanted: T -> bool, pick: T -> bool)
    requires forall i :: 0 <= i < |s| && wanted(s[i]) ==> pick(s[i])
    ensures First(Filter(s, pick), wanted) == First(s, wanted)
  {
    if s != [] {
      FirstOfFilter(s[1..], wanted, pick);
      if pick(s[0]) {
        assert Filter(s, pick)[1..] == Filter(s[1..], pick);
      }
    }
  }

  /** A match after a prefix without matches is the first one. */
  lemma {:induction false} FirstAfter<T>(s: seq<T>, wanted: T -> bool, k: nat)
    requires k <= |s| && forall i :: 0 <= i < k ==> !wanted(s[i])
    ensures First(s, wanted) == First(s[k..], wanted)
  {
    if k > 0 {
      FirstAfter(s[1..], wanted, k - 1);
      assert s[1..][k - 1..] == s[k..];
    }
  }

  /** The sequence without the first occurrence of `x`. */
  function Drop(s: seq<nat>, x: nat): seq<nat> {
    if s == [] then [] else if s[0] == x then s[1..] else [s[0]] + Drop(s[1..], x)
  }

  lemma {:induction false} DropIsCut(s: seq<nat>, k: nat)
    requires Distinct(s) && k < |s|
    ensures Drop(s, s[k]) == Cut(s, k)
  {
    if k > 0 {
      assert s[k] == s[1..][k - 1];
      DropIsCut(s[1..], k - 1);
      assert Cut(s, k) == [s[0]] + Cut(s[1..], k - 1);
    }
  }

  lemma {:induction false} DropMissing(s: seq<nat>, x: nat)
    requires x !in s
    ensures Drop(s, x) == s
  {
    if s != [] {
      DropMissing(s[1..], x);
    }
  }

  /** Taking an element out of the sequence takes it out of the selection. */
  lemma {:induction false} FilterDrop(s: seq<nat>, pick: nat -> bool, x: nat)
    ensures Filter(Drop(s, x), pick) == if pick(x) then Drop(Filter(s, pick), x) else Filter(s, pick)
  {
    if s != [] {
      FilterDrop(s[1..], pick, x);
      if s[0] != x {
        assert Drop(s, x)[1..] == Drop(s[1..], x);
        if pick(s[0]) {
          assert Filter(s, pick)[1..] == Filter(s[1..], pick);
        }
      } else if pick(x) {
        assert Filter(s, pick)[1..] == Filter(s[1..], pick);
      }
    }
  }
}
