/** The checksum of the GPT driver is the remainder of a division of polynomials. */
module CrcRemainder {
  import opened Crc32
  import opened Division
  import opened Polynomials
  import opened ShiftRegister

  /** x^32 + x^26 + x^23 + x^22 + x^16 + x^12 + x^11 + x^10 + x^8 + x^7 + x^5 + x^4 + x^2 + x + 1. */
  const GENERATOR: seq<bool> := seq(33, (i: nat) => 32 - i in {32, 26, 23, 22, 16, 12, 11, 10, 8, 7, 5, 4, 2, 1, 0})

  /** A word as a polynomial: the low bit is the coefficient of x^31. */
  function Coefficients(w: bv32): (p: seq<bool>)
    ensures |p| == 32
  {
    WordBits(Half, Odd, w, 32)
  }

  function Complement(p: seq<bool>): (c: seq<bool>)
    ensures |c| == |p| && forall i :: 0 <= i < |p| ==> c[i] == !p[i]
  {
    seq(|p|, (i: nat) requires i < |p| => !p[i])
  }

  // ----- words as polynomials

  lemma OddXor(x: bv32, y: bv32)
    ensures Odd(Xor(x, y)) == (Odd(x) != Odd(y))
  {
  }

  lemma HalfXor(x: bv32, y: bv32)
    ensures Half(Xor(x, y)) == Xor(Half(x), Half(y))
  {
  }

  lemma HalfLinear()
    ensures Linear(Half, Xor)
  {
    forall x: bv32, y: bv32 ensures Half(Xor(x, y)) == Xor(Half(x), Half(y)) { HalfXor(x, y); }
  }

  lemma OddLinear()
    ensures forall x: bv32, y: bv32 :: Odd(Xor(x, y)) == (Odd(x) != Odd(y))
  {
    forall x: bv32, y: bv32 ensures Odd(Xor(x, y)) == (Odd(x) != Odd(y)) { OddXor(x, y); }
  }

  lemma XorAt(x: bv32, y: bv32, i: nat)
    requires i < 32
    ensures Coefficients(Xor(x, y))[i] == (Coefficients(x)[i] != Coefficients(y)[i])
  {
    HalfLinear();
    OddLinear();
    BitsAdded(Half, Odd, Xor, x, y, 32, i);
  }

  lemma TopGone(w: bv32)
    ensures !Odd(Half((((w >> 8) >> 8) >> 8) >> 7))
  {
  }

  lemma HalfShifts(w: bv32, i: nat)
    requires i < 32
    ensures Coefficients(Half(w))[i] == (i < 31 && Coefficients(w)[i + 1])
  {
    BitAt(Half, Odd, Half(w), 32, i);
    if i < 31 {
      BitAt(Half, Odd, w, 32, i + 1);
    } else {
      IterateLast(Half, w, 31);
      HalvesBy31(w);
      TopGone(w);
    }
  }

  lemma Shifted(w: bv32)
    ensures Half(Half(Half(Half(w)))) == w >> 4
    ensures Odd(Half(w)) == (w & 2 == 2) && Odd(Half(Half(w))) == (w & 4 == 4)
    ensures Odd(Half(Half(Half(w)))) == (w & 8 == 8)
  {
  }

  /** The low four bits of a word and the rest. */
  lemma Nibble(w: bv32, rest: bv32, n: nat, bits: seq<bool>)
    requires n >= 4 && w >> 4 == rest && |bits| == 4
    requires bits[0] == (w & 1 == 1) && bits[1] == (w & 2 == 2) && bits[2] == (w & 4 == 4) && bits[3] == (w & 8 == 8)
    ensures WordBits(Half, Odd, w, n) == bits + WordBits(Half, Odd, rest, n - 4)
  {
    FourBits(Half, Odd, w, n);
    Shifted(w);
  }

  lemma TwoNibbles(w: bv32, middle: bv32, rest: bv32, n: nat, low: seq<bool>, high: seq<bool>, above: seq<bool>)
    requires n >= 8 && w >> 4 == middle && middle >> 4 == rest && WordBits(Half, Odd, rest, n - 8) == above
    requires |low| == 4 && low[0] == (w & 1 == 1) && low[1] == (w & 2 == 2) && low[2] == (w & 4 == 4)
    requires low[3] == (w & 8 == 8)
    requires |high| == 4 && high[0] == (middle & 1 == 1) && high[1] == (middle & 2 == 2)
    requires high[2] == (middle & 4 == 4) && high[3] == (middle & 8 == 8)
    ensures WordBits(Half, Odd, w, n) == low + (high + above)
  {
    Nibble(w, middle, n, low);
    Nibble(middle, rest, n - 4, high);
  }

  lemma GeneratorTop()
    ensures WordBits(Half, Odd, 0xED, 8) == GENERATOR[25..]
  {
    TwoNibbles(0xED, 0xE, 0, 8, [true, false, true, true], [false, true, true, true], []);
  }

  lemma GeneratorThird()
    ensures WordBits(Half, Odd, 0xEDB8, 16) == GENERATOR[17..]
  {
    GeneratorTop();
    TwoNibbles(0xEDB8, 0xEDB, 0xED, 16, [false, false, false, true], [true, true, false, true], GENERATOR[25..]);
  }

  lemma GeneratorSecond()
    ensures WordBits(Half, Odd, 0xEDB883, 24) == GENERATOR[9..]
  {
    GeneratorThird();
    TwoNibbles(0xEDB883, 0xEDB88, 0xEDB8, 24, [true, true, false, false], [false, false, false, true],
               GENERATOR[17..]);
  }

  /** The constant of the table set-up holds the coefficients below x^32. */
  lemma GeneratorWord()
    ensures Coefficients(0xEDB88320) == GENERATOR[1..]
  {
    GeneratorSecond();
    TwoNibbles(0xEDB88320, 0xEDB8832, 0xEDB883, 32, [false, false, false, false], [false, true, false, false],
               GENERATOR[9..]);
  }

  predicate Ones(p: seq<bool>) {
    forall i :: 0 <= i < |p| ==> p[i]
  }

  lemma OnesNibble(w: bv32, rest: bv32, n: nat)
    requires n >= 4 && w >> 4 == rest && w & 15 == 15 && Ones(WordBits(Half, Odd, rest, n - 4))
    ensures Ones(WordBits(Half, Odd, w, n))
  {
    assert w & 1 == 1 && w & 2 == 2 && w & 4 == 4 && w & 8 == 8;
    Nibble(w, rest, n, [true, true, true, true]);
  }

  lemma OnesWord()
    ensures Ones(Coefficients(0xFFFF_FFFF))
  {
    OnesNibble(0xF, 0, 4);
    OnesNibble(0xFF, 0xF, 8);
    OnesNibble(0xFFF, 0xFF, 12);
    OnesNibble(0xFFFF, 0xFFF, 16);
    OnesNibble(0xF_FFFF, 0xFFFF, 20);
    OnesNibble(0xFF_FFFF, 0xF_FFFF, 24);
    OnesNibble(0xFFF_FFFF, 0xFF_FFFF, 28);
    OnesNibble(0xFFFF_FFFF, 0xFFF_FFFF, 32);
  }

  // ----- a step of the register is a step of the division

  lemma BitEnters(x: bv32, b: bool)
    ensures Half(Xor(x, Bit(b))) == Half(x) && Odd(Xor(x, Bit(b))) == (Odd(x) != b)
  {
  }

  lemma StepOf(y: bv32)
    ensures BitStep(y) == if Odd(y) then Xor(Half(y), 0xEDB88320) else Half(y)
  {
  }

  lemma StepAt(x: bv32, b: bool, y: bv32, i: nat)
    requires i < 32 && y == BitStep(Xor(x, Bit(b)))
    ensures Coefficients(y)[i] == ((i < 31 && Coefficients(x)[i + 1]) != ((Odd(x) != b) && GENERATOR[i + 1]))
  {
    BitEnters(x, b);
    StepOf(Xor(x, Bit(b)));
    HalfShifts(x, i);
    if Odd(x) != b {
      XorAt(Half(x), 0xEDB88320, i);
      GeneratorWord();
    }
  }

  lemma FirstCoefficient(x: bv32)
    ensures Coefficients(x)[0] == Odd(x)
  {
  }

  lemma StepDivides(x: bv32, b: bool)
    ensures Coefficients(BitStep(Xor(x, Bit(b)))) == Divided(Coefficients(x), b, GENERATOR)
  {
    var y := BitStep(Xor(x, Bit(b)));
    FirstCoefficient(x);
    forall i: nat | i < 32 ensures Coefficients(y)[i] == Divided(Coefficients(x), b, GENERATOR)[i] {
      StepAt(x, b, y, i);
    }
  }

  lemma RegisterDivides()
    ensures Divides(REGISTER, Coefficients, GENERATOR)
  {
    forall x: bv32, b: bool ensures Coefficients(BitStep(Xor(x, Bit(b)))) == Divided(Coefficients(x), b, GENERATOR) {
      StepDivides(x, b);
    }
  }

  lemma NotIsXor(w: bv32)
    ensures Not(w) == Xor(w, 0xFFFF_FFFF)
  {
  }

  lemma NotComplements(w: bv32)
    ensures Coefficients(Not(w)) == Complement(Coefficients(w))
  {
    NotIsXor(w);
    OnesWord();
    forall i: nat | i < 32 ensures Coefficients(Not(w))[i] == Complement(Coefficients(w))[i] {
      XorAt(w, 0xFFFF_FFFF, i);
    }
  }

  /** The register at the end is what the message leaves, divided by the generator. */
  lemma RegisterLeaves(bits: seq<bool>, x: bv32)
    requires x == Fed(REGISTER, 0xFFFF_FFFF, bits)
    ensures Leaves(Dividend(bits, 32), GENERATOR, Coefficients(x))
  {
    RegisterDivides();
    OnesWord();
    var q := FedDivides(REGISTER, Coefficients, GENERATOR, 0xFFFF_FFFF, bits);
  }

  /** The complement of the checksum is what the message leaves, divided by the generator. */
  lemma CrcIsRemainder(data: seq<Byte>)
    ensures Leaves(Dividend(Bits(data), 32), GENERATOR, Complement(Coefficients(CrcOf(data))))
  {
    var x := Fed(REGISTER, 0xFFFF_FFFF, Bits(data));
    RegisterLeaves(Bits(data), x);
    NotComplements(CrcOf(data));
    NotNot(x);
  }

  lemma AllShiftedOut(w: bv32)
    ensures Small(REGISTER, w, 32)
  {
    IterateLast(Half, w, 31);
    HalvesBy31(w);
    TopZero(w);
  }

  lemma TopZero(w: bv32)
    ensures Half((((w >> 8) >> 8) >> 8) >> 7) == 0
  {
  }

  lemma CoefficientsDecide(v: bv32, w: bv32)
    requires Complement(Coefficients(v)) == Complement(Coefficients(w))
    ensures v == w
  {
    forall i | 0 <= i < 32 ensures Coefficients(v)[i] == Coefficients(w)[i] {
      assert Complement(Coefficients(v))[i] == Complement(Coefficients(w))[i];
    }
    assert Coefficients(v) == Coefficients(w);
    AllShiftedOut(v);
    AllShiftedOut(w);
    BitsOfWord(v, 32);
    BitsOfWord(w, 32);
  }

  /** The checksum is the one word whose complement the message leaves. */
  lemma CrcExact(data: seq<Byte>, w: bv32)
    ensures Leaves(Dividend(Bits(data), 32), GENERATOR, Complement(Coefficients(w))) <==> w == CrcOf(data)
  {
    CrcIsRemainder(data);
    if Leaves(Dividend(Bits(data), 32), GENERATOR, Complement(Coefficients(w))) {
      RemainderUnique(Dividend(Bits(data), 32), GENERATOR, Complement(Coefficients(w)),
                      Complement(Coefficients(CrcOf(data))));
      CoefficientsDecide(w, CrcOf(data));
    }
  }
}
