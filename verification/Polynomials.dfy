/** Polynomials over the field of two elements, by their coefficients, highest power first. */
module Polynomials {

  function Zeros(n: nat): (p: seq<bool>)
    ensures |p| == n && forall i :: 0 <= i < n ==> !p[i]
  {
    seq(n, (_: nat) => false)
  }

  function Plus(p: seq<bool>, q: seq<bool>): (sum: seq<bool>)
    requires |p| == |q|
    ensures |sum| == |p| && forall i :: 0 <= i < |p| ==> sum[i] == (p[i] != q[i])
  {
    seq(|p|, (i: nat) requires i < |p| => p[i] != q[i])
  }

  /** `g` or the zero polynomial of the same length. */
  function Scaled(b: bool, g: seq<bool>): (p: seq<bool>)
    ensures |p| == |g| && forall i :: 0 <= i < |g| ==> p[i] == (b && g[i])
  {
    seq(|g|, (i: nat) requires i < |g| => b && g[i])
  }

  /** The product: (q x + b) g = (q g) x + b g. */
  function Times(q: seq<bool>, g: seq<bool>): (p: seq<bool>)
    requires g != []
    ensures |p| == |q| + |g| - 1
    decreases |q|
  {
    if q == [] then Zeros(|g| - 1)
    else
      var n := |q| - 1;
      Plus(Times(q[..n], g) + [false], Zeros(n) + Scaled(q[n], g))
  }

  /** Dividing `p` by `g` leaves `r`: a multiple of `g` plus `p` is `r`, which has a lower degree than `g`. */
  ghost predicate Leaves(p: seq<bool>, g: seq<bool>, r: seq<bool>) {
    exists q :: Quotient(p, g, q, r)
  }

  ghost predicate Quotient(p: seq<bool>, g: seq<bool>, q: seq<bool>, r: seq<bool>) {
    g != [] && |r| == |g| - 1 && |p| == |q| + |r| && Plus(p, Times(q, g)) == Zeros(|q|) + r
  }

  lemma SumAt(p: seq<bool>, n: nat, b: bool, g: seq<bool>, i: nat)
    requires |p| + 1 == n + |g| && i < n + |g|
    ensures Plus(p + [false], Zeros(n) + Scaled(b, g))[i] == ((i < |p| && p[i]) != (i >= n && b && g[i - n]))
  {
  }

  lemma TimesAt(q: seq<bool>, g: seq<bool>, i: nat)
    requires g != [] && q != [] && i < |q| + |g| - 1
    ensures Times(q, g)[i] ==
      ((i < |q| + |g| - 2 && Times(q[..|q| - 1], g)[i]) != (i >= |q| - 1 && q[|q| - 1] && g[i - |q| + 1]))
  {
    var n := |q| - 1;
    SumAt(Times(q[..n], g), n, q[n], g, i);
  }

  lemma LowerAgree(q: seq<bool>, s: seq<bool>, g: seq<bool>, i: nat)
    requires |q| == |s| && g != [] && i < |q| - 1 && Times(q, g)[i] == Times(s, g)[i]
    ensures Times(q[..|q| - 1], g)[i] == Times(s[..|q| - 1], g)[i]
  {
    TimesAt(q, g, i);
    TimesAt(s, g, i);
  }

  lemma TimesLast(q: seq<bool>, b: bool, g: seq<bool>)
    requires g != [] && g[0]
    ensures Times(q + [b], g)[|q|] == ((|g| > 1 && Times(q, g)[|q|]) != b)
  {
    TimesAt(q + [b], g, |q|);
    assert (q + [b])[..|q|] == q;
  }

  lemma LastAgrees(q: seq<bool>, a: bool, b: bool, g: seq<bool>)
    requires g != [] && g[0] && Times(q + [a], g)[|q|] == Times(q + [b], g)[|q|]
    ensures a == b
  {
    TimesLast(q, a, g);
    TimesLast(q, b, g);
  }

  lemma LastDecides(q: seq<bool>, s: seq<bool>, front: seq<bool>, g: seq<bool>)
    requires |q| == |s| == |front| + 1 && q[..|front|] == front == s[..|front|]
    requires g != [] && g[0] && Times(q, g)[|front|] == Times(s, g)[|front|]
    ensures q == s
  {
    var n := |front|;
    assert q == front + [q[n]] && s == front + [s[n]];
    LastAgrees(front, q[n], s[n], g);
  }

  /** The high coefficients of a multiple tell what it is a multiple by. */
  lemma {:induction false} HighDecides(q: seq<bool>, s: seq<bool>, g: seq<bool>)
    requires |q| == |s| && g != [] && g[0] && forall i: nat :: i < |q| ==> Times(q, g)[i] == Times(s, g)[i]
    ensures q == s
    decreases |q|
  {
    if q != [] {
      var n := |q| - 1;
      forall i: nat | i < n ensures Times(q[..n], g)[i] == Times(s[..n], g)[i] { LowerAgree(q, s, g, i); }
      HighDecides(q[..n], s[..n], g);
      LastDecides(q, s, q[..n], g);
    }
  }

  /** There is one remainder. */
  lemma RemainderUnique(p: seq<bool>, g: seq<bool>, r: seq<bool>, s: seq<bool>)
    requires Leaves(p, g, r) && Leaves(p, g, s) && g[0]
    ensures r == s
  {
    var q :| Quotient(p, g, q, r);
    var t :| Quotient(p, g, t, s);
    forall i: nat | i < |q| ensures Times(q, g)[i] == Times(t, g)[i] {
      assert Plus(p, Times(q, g))[i] == (Zeros(|q|) + r)[i] && Plus(p, Times(t, g))[i] == (Zeros(|t|) + s)[i];
    }
    HighDecides(q, t, g);
    assert r == (Zeros(|q|) + r)[|q|..] && s == (Zeros(|q|) + s)[|q|..];
  }

  /** The long division takes in coefficient `b`: the new remainder, one coefficient on. */
  function Divided(r: seq<bool>, b: bool, g: seq<bool>): (next: seq<bool>)
    requires g != [] && |r| == |g| - 1 > 0
    ensures |next| == |r|
  {
    seq(|r|, (i: nat) requires i < |r| => (i + 1 < |r| && r[i + 1]) != ((r[0] != b) && g[i + 1]))
  }

  /** `p` and then a place for one more coefficient, with `b` added below the ones divided already. */
  ghost predicate Grows(p: seq<bool>, next: seq<bool>, k: nat, b: bool) {
    |next| == |p| + 1 && k < |p| && forall i: nat :: i < |next| ==> next[i] == ((i < |p| && p[i]) != (i == k && b))
  }

  /** One step of the long division. */
  lemma DivisionStep(p: seq<bool>, next: seq<bool>, g: seq<bool>, q: seq<bool>, r: seq<bool>, b: bool)
    requires |r| > 0 && Quotient(p, g, q, r) && g[0] && Grows(p, next, |q|, b)
    ensures Quotient(next, g, q + [r[0] != b], Divided(r, b, g))
  {
    var k, t := |q|, r[0] != b;
    var more := q + [t];
    assert more[..k] == q;
    forall i: nat | i < |next| ensures Plus(next, Times(more, g))[i] == (Zeros(k + 1) + Divided(r, b, g))[i] {
      TimesAt(more, g, i);
      if i < |p| {
        assert Plus(p, Times(q, g))[i] == (Zeros(k) + r)[i];
      }
    }
  }
}
