/**
 Shift registers in general: a step function on words, an addition of words, and message bits that
 are added to the low end before each step.
 */
module ShiftRegister {

  function Iterate<T>(f: T -> T, x: T, n: nat): T
    decreases n
  {
    if n == 0 then x else Iterate(f, f(x), n - 1)
  }

  /** Feeds message bits one at a time; `bit` turns a bit into a word. */
  function Feed<T>(f: T -> T, add: (T, T) -> T, bit: bool -> T, x: T, bits: seq<bool>): T
    decreases |bits|
  {
    if bits == [] then x else Feed(f, add, bit, f(add(x, bit(bits[0]))), bits[1..])
  }

  ghost predicate Associative<T(!new)>(add: (T, T) -> T) {
    forall a, b, c {:trigger add(add(a, b), c)} :: add(add(a, b), c) == add(a, add(b, c))
  }

  ghost predicate Linear<T(!new)>(f: T -> T, add: (T, T) -> T) {
    forall a, b :: f(add(a, b)) == add(f(a), f(b))
  }

  ghost predicate Injective<T(!new)>(f: T -> T) {
    forall a, b :: f(a) == f(b) ==> a == b
  }

  /** Adding the same word to two words keeps them apart. */
  ghost predicate Cancels<T(!new)>(add: (T, T) -> T) {
    forall a, b, c :: (add(a, c) == add(b, c) ==> a == b) && (add(c, a) == add(c, b) ==> a == b)
  }

  lemma {:induction false} IterateLinear<T(!new)>(f: T -> T, add: (T, T) -> T, x: T, y: T, n: nat)
    requires Linear(f, add)
    ensures Iterate(f, add(x, y), n) == add(Iterate(f, x, n), Iterate(f, y, n))
    decreases n
  {
    if n > 0 {
      IterateLinear(f, add, f(x), f(y), n - 1);
    }
  }

  lemma {:induction false} IterateInjective<T(!new)>(f: T -> T, x: T, y: T, n: nat)
    requires Injective(f) && Iterate(f, x, n) == Iterate(f, y, n)
    ensures x == y
    decreases n
  {
    if n > 0 {
      IterateInjective(f, f(x), f(y), n - 1);
    }
  }

  lemma {:induction false} IterateLast<T>(f: T -> T, x: T, n: nat)
    ensures Iterate(f, x, n + 1) == f(Iterate(f, x, n))
    decreases n
  {
    if n > 0 {
      IterateLast(f, f(x), n - 1);
    }
  }

  lemma {:induction false} FeedSplit<T>(f: T -> T, add: (T, T) -> T, bit: bool -> T, x: T, a: seq<bool>, b: seq<bool>)
    ensures Feed(f, add, bit, x, a + b) == Feed(f, add, bit, Feed(f, add, bit, x, a), b)
    decreases |a|
  {
    if a == [] {
      assert a + b == b;
    } else {
      assert (a + b)[1..] == a[1..] + b;
      FeedSplit(f, add, bit, f(add(x, bit(a[0]))), a[1..], b);
    }
  }

  /** The same bits take different registers to different registers. */
  lemma {:induction false} FeedInjective<T(!new)>(f: T -> T, add: (T, T) -> T, bit: bool -> T, x: T, y: T,
                                                  bits: seq<bool>)
    requires Injective(f) && Cancels(add)
    requires Feed(f, add, bit, x, bits) == Feed(f, add, bit, y, bits)
    ensures x == y
    decreases |bits|
  {
    if bits != [] {
      FeedInjective(f, add, bit, f(add(x, bit(bits[0]))), f(add(y, bit(bits[0]))), bits[1..]);
    }
  }

  /** The word with the given bits, first bit lowest. */
  function Horner<T>(add: (T, T) -> T, double: T -> T, bit: bool -> T, zero: T, bits: seq<bool>): T
    decreases |bits|
  {
    if bits == [] then zero else add(bit(bits[0]), double(Horner(add, double, bit, zero, bits[1..])))
  }

  /** Bits that enter one at a time may as well be added to the register all at once. */
  lemma {:induction false} FeedAtOnce<T(!new)>(f: T -> T, add: (T, T) -> T, double: T -> T, bit: bool -> T, zero: T,
                                               x: T, bits: seq<bool>)
    requires Linear(f, add) && Associative(add) && forall a :: add(a, zero) == a
    requires forall k :: 0 <= k <= |bits| && k > 0 ==>
      f(double(Horner(add, double, bit, zero, bits[k..]))) == Horner(add, double, bit, zero, bits[k..])
    ensures Feed(f, add, bit, x, bits) == Iterate(f, add(x, Horner(add, double, bit, zero, bits)), |bits|)
    decreases |bits|
  {
    if bits != [] {
      var rest := Horner(add, double, bit, zero, bits[1..]);
      var y := add(x, bit(bits[0]));
      assert bits[1..] == bits[1..][0..];
      forall k | 0 < k <= |bits[1..]|
        ensures f(double(Horner(add, double, bit, zero, bits[1..][k..]))) ==
          Horner(add, double, bit, zero, bits[1..][k..])
      {
        assert bits[1..][k..] == bits[k + 1..];
      }
      FeedAtOnce(f, add, double, bit, zero, f(y), bits[1..]);
      assert add(f(y), f(double(rest))) == f(add(y, double(rest)));
      assert add(add(x, bit(bits[0])), double(rest)) == add(x, add(bit(bits[0]), double(rest)));
    }
  }

  /** A register: the step, the addition, and shifts by one bit up and down. */
  datatype Register<!T> = Register(
    step: T -> T,
    add: (T, T) -> T,
    double: T -> T,
    half: T -> T,
    bit: bool -> T,
    zero: T,
    width: nat)

  /** The word has at most `n` bits. */
  predicate Small<T(==)>(r: Register<T>, w: T, n: nat) {
    Iterate(r.half, w, n) == r.zero
  }

  ghost predicate Lawful<T(!new)>(r: Register<T>) {
    && Linear(r.step, r.add) && Injective(r.step)
    && Associative(r.add) && Cancels(r.add) && (forall a :: r.add(a, r.zero) == a)
    && r.half(r.zero) == r.zero && r.width > 0 && r.bit(false) != r.bit(true)
    && (forall w :: ShiftsBack(r, w))
  }

  /** A word with a free top bit can be shifted up and back. */
  predicate ShiftsBack<T(==)>(r: Register<T>, w: T) {
    r.width > 0 && Small(r, w, r.width - 1) ==>
      && r.step(r.double(w)) == w && r.half(r.double(w)) == w
      && r.half(r.add(r.bit(false), r.double(w))) == w && r.half(r.add(r.bit(true), r.double(w))) == w
  }

  lemma {:induction false} IterateSum<T>(f: T -> T, x: T, m: nat, n: nat)
    ensures Iterate(f, x, m + n) == Iterate(f, Iterate(f, x, m), n)
    decreases m
  {
    if m > 0 {
      IterateSum(f, f(x), m - 1, n);
    }
  }

  lemma {:induction false} IterateFixed<T>(f: T -> T, x: T, n: nat)
    requires f(x) == x
    ensures Iterate(f, x, n) == x
    decreases n
  {
    if n > 0 {
      IterateFixed(f, x, n - 1);
    }
  }

  /** A word of fewer bits than the register shifts up and back. */
  lemma SmallShiftsBack<T(!new)>(r: Register<T>, w: T, n: nat, b: bool)
    requires Lawful(r) && n < r.width && Small(r, w, n)
    ensures r.step(r.double(w)) == w && r.half(r.double(w)) == w && r.half(r.add(r.bit(b), r.double(w))) == w
  {
    IterateSum(r.half, w, n, r.width - 1 - n);
    IterateFixed(r.half, r.zero, r.width - 1 - n);
    assert ShiftsBack(r, w);
    if b { } else { }
  }

  function Word<T>(r: Register<T>, bits: seq<bool>): T {
    Horner(r.add, r.double, r.bit, r.zero, bits)
  }

  function Fed<T>(r: Register<T>, x: T, bits: seq<bool>): T {
    Feed(r.step, r.add, r.bit, x, bits)
  }

  lemma {:induction false} WordSmall<T(!new)>(r: Register<T>, bits: seq<bool>)
    requires Lawful(r) && |bits| < r.width
    ensures Small(r, Word(r, bits), |bits|)
    decreases |bits|
  {
    if bits != [] {
      WordSmall(r, bits[1..]);
      SmallShiftsBack(r, Word(r, bits[1..]), |bits| - 1, bits[0]);
    }
  }

  /** As many bits as the register is wide enter by one addition. */
  lemma FedAtOnce<T(!new)>(r: Register<T>, x: T, bits: seq<bool>)
    requires Lawful(r) && |bits| <= r.width
    ensures Fed(r, x, bits) == Iterate(r.step, r.add(x, Word(r, bits)), |bits|)
  {
    forall k | 0 <= k <= |bits| && k > 0 ensures r.step(r.double(Word(r, bits[k..]))) == Word(r, bits[k..]) {
      WordSmall(r, bits[k..]);
      SmallShiftsBack(r, Word(r, bits[k..]), |bits| - k, false);
    }
    FeedAtOnce(r.step, r.add, r.double, r.bit, r.zero, x, bits);
  }

  /** The lowest bit and the rest of a word that is not too wide. */
  lemma WordParts<T(!new)>(r: Register<T>, a: seq<bool>)
    requires Lawful(r) && 0 < |a| <= r.width
    ensures r.half(Word(r, a)) == Word(r, a[1..]) && Word(r, a) == r.add(r.bit(a[0]), r.double(Word(r, a[1..])))
  {
    WordSmall(r, a[1..]);
    SmallShiftsBack(r, Word(r, a[1..]), |a| - 1, a[0]);
  }

  lemma {:induction false} WordInjective<T(!new)>(r: Register<T>, a: seq<bool>, b: seq<bool>)
    requires Lawful(r) && |a| == |b| <= r.width && Word(r, a) == Word(r, b)
    ensures a == b
    decreases |a|
  {
    if a != [] {
      WordParts(r, a);
      WordParts(r, b);
      WordInjective(r, a[1..], b[1..]);
      CancelBit(r, a[0], b[0], r.double(Word(r, a[1..])));
      assert a == [a[0]] + a[1..] && b == [b[0]] + b[1..];
    }
  }

  lemma CancelBit<T(!new)>(r: Register<T>, a: bool, b: bool, w: T)
    requires Lawful(r) && r.add(r.bit(a), w) == r.add(r.bit(b), w)
    ensures a == b
  {
    assert r.bit(a) == r.bit(b);
  }

  /** The checksum of a message: what `out` makes of the register at the end. */
  function Checksum<T>(r: Register<T>, out: T -> T, x: T, bits: seq<bool>): T {
    out(Fed(r, x, bits))
  }

  /** Messages that differ only within a window no wider than the register have different checksums. */
  lemma WindowDetected<T(!new)>(r: Register<T>, out: T -> T, x: T, prefix: seq<bool>, a: seq<bool>, b: seq<bool>,
                                suffix: seq<bool>)
    requires Lawful(r) && Injective(out) && |a| == |b| <= r.width
    requires Checksum(r, out, x, prefix + a + suffix) == Checksum(r, out, x, prefix + b + suffix)
    ensures a == b
  {
    var y := Fed(r, x, prefix);
    FedParts(r, x, prefix, a, suffix);
    FedParts(r, x, prefix, b, suffix);
    FeedInjective(r.step, r.add, r.bit, Fed(r, y, a), Fed(r, y, b), suffix);
    FedAtOnce(r, y, a);
    FedAtOnce(r, y, b);
    IterateInjective(r.step, r.add(y, Word(r, a)), r.add(y, Word(r, b)), |a|);
    WordInjective(r, a, b);
  }

  lemma FedParts<T>(r: Register<T>, x: T, prefix: seq<bool>, a: seq<bool>, suffix: seq<bool>)
    ensures Fed(r, x, prefix + a + suffix) == Fed(r, Fed(r, Fed(r, x, prefix), a), suffix)
  {
    FeedSplit(r.step, r.add, r.bit, x, prefix + a, suffix);
    FeedSplit(r.step, r.add, r.bit, x, prefix, a);
  }

  /** A checksum is continued by undoing `out` first. */
  lemma ChecksumContinues<T(!new)>(r: Register<T>, out: T -> T, x: T, a: seq<bool>, b: seq<bool>)
    requires forall t :: out(out(t)) == t
    ensures Checksum(r, out, out(Checksum(r, out, x, a)), b) == Checksum(r, out, x, a + b)
  {
    FeedSplit(r.step, r.add, r.bit, x, a, b);
  }

  /** A group of bits enters by one addition, and the rest follows. */
  lemma GroupFed<T(!new)>(r: Register<T>, x: T, group: seq<bool>, rest: seq<bool>)
    requires Lawful(r) && |group| <= r.width
    ensures Fed(r, x, group + rest) == Fed(r, Iterate(r.step, r.add(x, Word(r, group)), |group|), rest)
  {
    FeedSplit(r.step, r.add, r.bit, x, group, rest);
    FedAtOnce(r, x, group);
  }

  /** A word shifted up by whole steps comes back down by as many steps. */
  lemma {:induction false} ShiftsUndone<T(!new)>(r: Register<T>, w: T, n: nat, m: nat)
    requires Lawful(r) && Small(r, w, m) && m + n <= r.width
    ensures Iterate(r.step, Iterate(r.double, w, n), n) == w
    decreases n
  {
    if n > 0 {
      IterateLast(r.double, w, n - 1);
      ShiftedSmall(r, w, n - 1, m);
      SmallShiftsBack(r, Iterate(r.double, w, n - 1), m + n - 1, false);
      ShiftsUndone(r, w, n - 1, m);
    }
  }

  lemma {:induction false} ShiftedSmall<T(!new)>(r: Register<T>, w: T, n: nat, m: nat)
    requires Lawful(r) && Small(r, w, m) && m + n < r.width
    ensures Small(r, Iterate(r.double, w, n), m + n)
    decreases n
  {
    if n > 0 {
      SmallShiftsBack(r, w, m, false);
      ShiftedSmall(r, r.double(w), n - 1, m + 1);
    }
  }

  /** The low `n` bits of a word, lowest first. */
  function WordBits<T>(half: T -> T, odd: T -> bool, w: T, n: nat): (bits: seq<bool>)
    ensures |bits| == n
    decreases n
  {
    if n == 0 then [] else [odd(w)] + WordBits(half, odd, half(w), n - 1)
  }

  predicate Rebuilds<T(==)>(r: Register<T>, odd: T -> bool, w: T) {
    r.add(r.bit(odd(w)), r.double(r.half(w))) == w
  }

  /** A word is made of its bits. */
  lemma {:induction false} WordOfBits<T(!new)>(r: Register<T>, odd: T -> bool, w: T, n: nat)
    requires Small(r, w, n) && forall v :: Rebuilds(r, odd, v)
    ensures Word(r, WordBits(r.half, odd, w, n)) == w
    decreases n
  {
    if n > 0 {
      WordOfBits(r, odd, r.half(w), n - 1);
      assert Rebuilds(r, odd, w);
      assert WordBits(r.half, odd, w, n)[1..] == WordBits(r.half, odd, r.half(w), n - 1);
    }
  }

  lemma IterateEight<T>(f: T -> T, x: T)
    ensures Iterate(f, x, 8) == f(f(f(f(f(f(f(f(x))))))))
  {
    assert Iterate(f, x, 8) == Iterate(f, f(f(f(f(x)))), 4);
  }

  lemma {:induction false} BitAt<T>(half: T -> T, odd: T -> bool, w: T, n: nat, i: nat)
    requires i < n
    ensures WordBits(half, odd, w, n)[i] == odd(Iterate(half, w, i))
    decreases n
  {
    if i > 0 { BitAt(half, odd, half(w), n - 1, i - 1); }
  }

  /** Addition is addition of the bits without a carry. */
  ghost predicate Bitwise<T(!new)>(half: T -> T, odd: T -> bool, add: (T, T) -> T) {
    Linear(half, add) && forall x, y :: odd(add(x, y)) == (odd(x) != odd(y))
  }

  lemma BitsAdded<T(!new)>(half: T -> T, odd: T -> bool, add: (T, T) -> T, x: T, y: T, n: nat, i: nat)
    requires Bitwise(half, odd, add) && i < n
    ensures WordBits(half, odd, add(x, y), n)[i] == (WordBits(half, odd, x, n)[i] != WordBits(half, odd, y, n)[i])
  {
    BitAt(half, odd, add(x, y), n, i);
    BitAt(half, odd, x, n, i);
    BitAt(half, odd, y, n, i);
    IterateLinear(half, add, x, y, i);
  }

  lemma FourBits<T>(half: T -> T, odd: T -> bool, w: T, n: nat)
    requires n >= 4
    ensures WordBits(half, odd, w, n) == [odd(w), odd(half(w)), odd(half(half(w))), odd(half(half(half(w))))]
      + WordBits(half, odd, half(half(half(half(w)))), n - 4)
  {
    var rest := half(half(w));
    assert WordBits(half, odd, w, n) == [odd(w), odd(half(w))] + WordBits(half, odd, rest, n - 2);
    assert WordBits(half, odd, rest, n - 2) ==
      [odd(rest), odd(half(rest))] + WordBits(half, odd, half(half(rest)), n - 4);
  }
}
