/** A register whose step is a step of a long division computes a remainder. */
module Division {
  import opened Polynomials
  import opened ShiftRegister

  /** The message times x^n, with its first `n` coefficients flipped. */
  function Dividend(bits: seq<bool>, n: nat): (p: seq<bool>)
    ensures |p| == |bits| + n
  {
    seq(|bits| + n, (i: nat) => (i < |bits| && bits[i]) != (i < n))
  }

  /** A step of the register on a message bit divides. */
  ghost predicate Divides<T(!new)>(r: Register<T>, word: T -> seq<bool>, g: seq<bool>) {
    && r.width > 0 && |g| == r.width + 1 && g[0] && (forall x :: |word(x)| == r.width)
    && forall x, b :: word(r.step(r.add(x, r.bit(b)))) == Divided(word(x), b, g)
  }

  lemma DividendGrows(bits: seq<bool>, k: nat, n: nat)
    requires n > 0 && |bits| == k + 1
    ensures Grows(Dividend(bits[..k], n), Dividend(bits, n), k, bits[k])
  {
  }

  lemma Undivided(g: seq<bool>, r: seq<bool>)
    requires g != [] && |r| == |g| - 1 && forall i :: 0 <= i < |r| ==> r[i]
    ensures Quotient(Dividend([], |r|), g, [], r)
  {
    assert Plus(Dividend([], |r|), Times([], g)) == Zeros(0) + r;
  }

  /** Feeding a message divides it. */
  lemma {:induction false} FedDivides<T(!new)>(r: Register<T>, word: T -> seq<bool>, g: seq<bool>, x: T,
                                               bits: seq<bool>) returns (q: seq<bool>)
    requires Divides(r, word, g) && forall i :: 0 <= i < r.width ==> word(x)[i]
    ensures |q| == |bits| && Quotient(Dividend(bits, r.width), g, q, word(Fed(r, x, bits)))
    decreases |bits|
  {
    if bits == [] {
      q := [];
      Undivided(g, word(x));
    } else {
      var k := |bits| - 1;
      var y := Fed(r, x, bits[..k]);
      var s := FedDivides(r, word, g, x, bits[..k]);
      DividendGrows(bits, k, r.width);
      DivisionStep(Dividend(bits[..k], r.width), Dividend(bits, r.width), g, s, word(y), bits[k]);
      q := s + [word(y)[0] != bits[k]];
      FedLast(r, x, bits[..k], bits[k]);
      assert bits == bits[..k] + [bits[k]];
    }
  }

  lemma FedLast<T>(r: Register<T>, x: T, bits: seq<bool>, b: bool)
    ensures Fed(r, x, bits + [b]) == r.step(r.add(Fed(r, x, bits), r.bit(b)))
  {
    FeedSplit(r.step, r.add, r.bit, x, bits, [b]);
  }
}
