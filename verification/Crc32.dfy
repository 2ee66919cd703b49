/** The CRC-32 of the GPT driver: a table of 256 words against the bit-serial definition. */
module Crc32 {
  import opened ShiftRegister

  type Byte = bv8

  /** One step of the register, for the reflected polynomial. */
  function BitStep(x: bv32): bv32 {
    if x & 1 == 1 then (x >> 1) ^ 0xEDB88320 else x >> 1
  }

  function Xor(x: bv32, y: bv32): bv32 {
    x ^ y
  }

  function Double(x: bv32): bv32 {
    x << 1
  }

  function Half(x: bv32): bv32 {
    x >> 1
  }

  function Bit(b: bool): bv32 {
    if b then 1 else 0
  }

  predicate Odd(x: bv32) {
    x & 1 == 1
  }

  function Not(x: bv32): bv32 {
    !x
  }

  /** The CRC register. */
  const REGISTER: Register<bv32> := Register(BitStep, Xor, Double, Half, Bit, 0, 32)

  const PRESET: bv32 := 0xFFFF_FFFF

  function ByteBits(b: Byte): seq<bool> {
    WordBits(Half, Odd, b as bv32, 8)
  }

  /** The message as bits, each byte from its low bit up. */
  function Bits(data: seq<Byte>): seq<bool> {
    if data == [] then [] else ByteBits(data[0]) + Bits(data[1..])
  }

  /** Continues the bit-serial checksum from register `x`, and complements the result. */
  function CrcFrom(x: bv32, data: seq<Byte>): bv32 {
    Checksum(REGISTER, Not, x, Bits(data))
  }

  /** The CRC-32 of a byte string by definition: the register starts with ones. */
  function CrcOf(data: seq<Byte>): bv32 {
    CrcFrom(PRESET, data)
  }

  // ----- facts about words, each small enough for the bit-vector solver

  lemma StepOddOdd(x: bv32, y: bv32)
    requires x & 1 == 1 && y & 1 == 1
    ensures BitStep(x ^ y) == BitStep(x) ^ BitStep(y)
  {
  }

  lemma StepOddEven(x: bv32, y: bv32)
    requires x & 1 == 1 && y & 1 != 1
    ensures BitStep(x ^ y) == BitStep(x) ^ BitStep(y)
  {
  }

  lemma StepEvenOdd(x: bv32, y: bv32)
    requires x & 1 != 1 && y & 1 == 1
    ensures BitStep(x ^ y) == BitStep(x) ^ BitStep(y)
  {
  }

  lemma StepEvenEven(x: bv32, y: bv32)
    requires x & 1 != 1 && y & 1 != 1
    ensures BitStep(x ^ y) == BitStep(x) ^ BitStep(y)
  {
  }

  lemma StepInjectiveAt(x: bv32, y: bv32)
    ensures BitStep(x) == BitStep(y) ==> x == y
  {
  }

  lemma XorCancelsAt(x: bv32, y: bv32, z: bv32)
    ensures (x ^ z == y ^ z ==> x == y) && (z ^ x == z ^ y ==> x == y)
  {
  }

  lemma XorAssociates(x: bv32, y: bv32, z: bv32)
    ensures (x ^ y) ^ z == x ^ (y ^ z)
  {
  }

  lemma XorCommutes(x: bv32, y: bv32)
    ensures Xor(x, y) == Xor(y, x)
  {
  }

  lemma NotNot(x: bv32)
    ensures !!x == x
  {
  }

  lemma LowAndRest(w: bv32)
    ensures Rebuilds(REGISTER, Odd, w)
  {
  }

  lemma EightHalves(w: bv32)
    ensures w >> 1 >> 1 >> 1 >> 1 >> 1 >> 1 >> 1 >> 1 == w >> 8
  {
  }

  lemma EightDoubles(w: bv32)
    ensures w << 1 << 1 << 1 << 1 << 1 << 1 << 1 << 1 == w << 8
  {
  }

  lemma TopFree(w: bv32)
    requires (((w >> 8) >> 8) >> 8) >> 7 == 0
    ensures w & 0x8000_0000 == 0
  {
  }

  lemma StepUndoesDouble(w: bv32)
    requires w & 0x8000_0000 == 0
    ensures BitStep(Double(w)) == w
  {
  }

  lemma HalfUndoesDouble(w: bv32)
    requires w & 0x8000_0000 == 0
    ensures Half(Double(w)) == w
  {
  }

  lemma HalfDropsBit(w: bv32, b: bool)
    requires w & 0x8000_0000 == 0
    ensures Half(Xor(Bit(b), Double(w))) == w
  {
  }

  // ----- the register is lawful

  lemma StepLinear()
    ensures Linear(BitStep, Xor)
  {
    forall x: bv32, y: bv32 ensures BitStep(Xor(x, y)) == Xor(BitStep(x), BitStep(y)) {
      if x & 1 == 1 {
        if y & 1 == 1 { StepOddOdd(x, y); } else { StepOddEven(x, y); }
      } else {
        if y & 1 == 1 { StepEvenOdd(x, y); } else { StepEvenEven(x, y); }
      }
    }
  }

  lemma StepInjective()
    ensures Injective(BitStep)
  {
    forall x: bv32, y: bv32 ensures BitStep(x) == BitStep(y) ==> x == y { StepInjectiveAt(x, y); }
  }

  lemma XorCancels()
    ensures Cancels(Xor)
  {
    forall x: bv32, y: bv32, z: bv32
      ensures (Xor(x, z) == Xor(y, z) ==> x == y) && (Xor(z, x) == Xor(z, y) ==> x == y)
    {
      XorCancelsAt(x, y, z);
    }
  }

  lemma XorAssociative()
    ensures Associative(Xor)
  {
    forall x: bv32, y: bv32, z: bv32 ensures Xor(Xor(x, y), z) == Xor(x, Xor(y, z)) { XorAssociates(x, y, z); }
  }

  lemma NotInvolutive()
    ensures (forall x: bv32 :: Not(Not(x)) == x) && Injective(Not)
  {
    forall x: bv32 ensures Not(Not(x)) == x { NotNot(x); }
    forall x: bv32, y: bv32 ensures Not(x) == Not(y) ==> x == y {
      NotNot(x);
      NotNot(y);
    }
  }

  lemma HalvesByEight(w: bv32)
    ensures Iterate(Half, w, 8) == w >> 8
  {
    IterateEight(Half, w);
    EightHalves(w);
  }

  lemma HalvesBySeven(w: bv32)
    ensures Iterate(Half, w, 7) == w >> 7
  {
    assert Iterate(Half, w, 7) == Iterate(Half, Half(Half(Half(Half(w)))), 3);
  }

  lemma HalvesBySixteen(w: bv32)
    ensures Iterate(Half, w, 16) == (w >> 8) >> 8
  {
    IterateSum(Half, w, 8, 8);
    HalvesByEight(w);
    HalvesByEight(w >> 8);
  }

  lemma HalvesBy31(w: bv32)
    ensures Iterate(Half, w, 31) == (((w >> 8) >> 8) >> 8) >> 7
  {
    IterateSum(Half, w, 16, 15);
    HalvesBySixteen(w);
    var v := (w >> 8) >> 8;
    IterateSum(Half, v, 8, 7);
    HalvesByEight(v);
    HalvesBySeven(v >> 8);
  }

  lemma RegisterShiftsBack(w: bv32)
    ensures ShiftsBack(REGISTER, w)
  {
    if Small(REGISTER, w, 31) {
      HalvesBy31(w);
      TopFree(w);
      StepUndoesDouble(w);
      HalfUndoesDouble(w);
      HalfDropsBit(w, false);
      HalfDropsBit(w, true);
    }
  }

  lemma RegisterLawful()
    ensures Lawful(REGISTER)
  {
    StepLinear();
    StepInjective();
    XorCancels();
    XorAssociative();
    forall w: bv32 ensures ShiftsBack(REGISTER, w) { RegisterShiftsBack(w); }
  }

  // ----- error detection and continuation

  /** Two bit strings that differ only within 32 consecutive bits never share a checksum. */
  lemma BurstDetected(prefix: seq<bool>, a: seq<bool>, b: seq<bool>, suffix: seq<bool>)
    requires |a| == |b| <= 32
    requires Checksum(REGISTER, Not, PRESET, prefix + a + suffix) ==
      Checksum(REGISTER, Not, PRESET, prefix + b + suffix)
    ensures a == b
  {
    RegisterLawful();
    NotInvolutive();
    WindowDetected(REGISTER, Not, PRESET, prefix, a, b, suffix);
  }

  lemma {:induction false} BitsConcat(a: seq<Byte>, b: seq<Byte>)
    ensures Bits(a + b) == Bits(a) + Bits(b)
  {
    if a == [] {
      assert a + b == b;
    } else {
      assert (a + b)[1..] == a[1..] + b;
      BitsConcat(a[1..], b);
    }
  }

  lemma {:induction false} BitsLength(data: seq<Byte>)
    ensures |Bits(data)| == 8 * |data|
  {
    if data != [] { BitsLength(data[1..]); }
  }

  lemma ByteBelow(b: Byte)
    ensures b as bv32 >> 8 == 0
  {
  }

  lemma BitsOfWord(w: bv32, n: nat)
    requires Small(REGISTER, w, n)
    ensures Word(REGISTER, WordBits(Half, Odd, w, n)) == w
  {
    forall v: bv32 ensures Rebuilds(REGISTER, Odd, v) { LowAndRest(v); }
    WordOfBits(REGISTER, Odd, w, n);
  }

  lemma ByteWord(b: Byte)
    ensures Word(REGISTER, ByteBits(b)) == b as bv32
  {
    HalvesByEight(b as bv32);
    ByteBelow(b);
    BitsOfWord(b as bv32, 8);
  }

  lemma WidenInjective(a: Byte, b: Byte)
    requires a as bv32 == b as bv32
    ensures a == b
  {
    assert (a as bv32) as bv8 == a && (b as bv32) as bv8 == b;
  }

  lemma ByteBitsInjective(a: Byte, b: Byte)
    requires ByteBits(a) == ByteBits(b)
    ensures a == b
  {
    ByteWord(a);
    ByteWord(b);
    WidenInjective(a, b);
  }

  lemma {:induction false} BitsInjective(a: seq<Byte>, b: seq<Byte>)
    requires |a| == |b| && Bits(a) == Bits(b)
    ensures a == b
  {
    if a != [] {
      assert Bits(a)[..8] == ByteBits(a[0]) && Bits(b)[..8] == ByteBits(b[0]);
      assert Bits(a)[8..] == Bits(a[1..]) && Bits(b)[8..] == Bits(b[1..]);
      ByteBitsInjective(a[0], b[0]);
      BitsInjective(a[1..], b[1..]);
      assert a == [a[0]] + a[1..] && b == [b[0]] + b[1..];
    }
  }

  /** Two byte strings that differ only within four consecutive bytes never share a checksum. */
  lemma FourBytesDetected(prefix: seq<Byte>, a: seq<Byte>, b: seq<Byte>, suffix: seq<Byte>)
    requires |a| == |b| <= 4 && CrcOf(prefix + a + suffix) == CrcOf(prefix + b + suffix)
    ensures a == b
  {
    BitsConcat(prefix + a, suffix);
    BitsConcat(prefix, a);
    BitsConcat(prefix + b, suffix);
    BitsConcat(prefix, b);
    BitsLength(a);
    BitsLength(b);
    BurstDetected(Bits(prefix), Bits(a), Bits(b), Bits(suffix));
    BitsInjective(a, b);
  }

  /** Continuing from the checksum of a prefix gives the checksum of the whole. */
  lemma CrcContinues(a: seq<Byte>, b: seq<Byte>)
    ensures CrcFrom(Not(CrcOf(a)), b) == CrcOf(a + b)
  {
    BitsConcat(a, b);
    NotInvolutive();
    ChecksumContinues(REGISTER, Not, PRESET, Bits(a), Bits(b));
  }

  // ----- one table look-up makes eight steps

  /** A byte enters the register by one addition and eight steps. */
  lemma FeedByte(x: bv32, data: seq<Byte>, n: nat)
    requires data != [] && n == 8
    ensures CrcFrom(x, data) == CrcFrom(Iterate(BitStep, Xor(x, data[0] as bv32), n), data[1..])
  {
    RegisterLawful();
    ByteWord(data[0]);
    GroupFed(REGISTER, x, ByteBits(data[0]), Bits(data[1..]));
  }

  lemma LowHigh(x: bv32, b: Byte)
    ensures ((x ^ b as bv32) & 0xFF) ^ ((x >> 8) << 8) == x ^ b as bv32
  {
  }

  lemma HighSmall(x: bv32)
    ensures (((x >> 8) >> 8) >> 8) >> 8 == 0
  {
  }

  /** A word shifted up by a byte comes back by eight steps. */
  lemma EightSteps(x: bv32)
    ensures Iterate(BitStep, (x >> 8) << 8, 8) == x >> 8
  {
    var w := x >> 8;
    assert Small(REGISTER, w, 24) by {
      IterateSum(Half, w, 16, 8);
      HalvesBySixteen(w);
      HalvesByEight((w >> 8) >> 8);
      HighSmall(x);
    }
    RegisterLawful();
    ShiftsUndone(REGISTER, w, 8, 24);
    IterateEight(Double, w);
    EightDoubles(w);
  }

  /** Eight steps are a shift by a byte plus the table entry of the low byte. */
  lemma TableStep(x: bv32, b: Byte, n: nat)
    requires n == 8
    ensures Xor(x >> 8, Iterate(BitStep, (x ^ b as bv32) & 0xFF, n)) == Iterate(BitStep, Xor(x, b as bv32), n)
  {
    var low, high := (x ^ b as bv32) & 0xFF, (x >> 8) << 8;
    StepLinear();
    IterateLinear(BitStep, Xor, low, high, n);
    LowHigh(x, b);
    EightSteps(x);
    XorCommutes(Iterate(BitStep, low, n), x >> 8);
  }

  lemma SameSum(x: bv32, y: bv32, entry: bv32, sum: bv32)
    requires entry == y && Xor(x >> 8, y) == sum
    ensures (x >> 8) ^ entry == sum
  {
  }

  /** What the loop body of the table-driven checksum computes. */
  lemma LookedUp(x: bv32, b: Byte, entry: bv32, next: bv32, n: nat)
    requires n == 8 && entry == Iterate(BitStep, (x ^ b as bv32) & 0xFF, n) && next == (x >> 8) ^ entry
    ensures next == Iterate(BitStep, Xor(x, b as bv32), n)
  {
    TableStep(x, b, n);
    SameSum(x, Iterate(BitStep, (x ^ b as bv32) & 0xFF, n), entry, Iterate(BitStep, Xor(x, b as bv32), n));
  }

  lemma CrcOfNothing(x: bv32, data: seq<Byte>)
    requires data == []
    ensures CrcFrom(x, data) == !x
  {
  }

  /** One byte of the message is taken by one look-up. */
  lemma ByteTaken(x: bv32, data: seq<Byte>, b: Byte, entry: bv32, next: bv32, n: nat)
    requires data != [] && b == data[0] && n == 8
    requires entry == Iterate(BitStep, (x ^ b as bv32) & 0xFF, n) && next == (x >> 8) ^ entry
    ensures CrcFrom(x, data) == CrcFrom(next, data[1..])
  {
    LookedUp(x, b, entry, next, n);
    FeedByte(x, data, n);
  }

  /** Entry `k` of the table is what eight steps make of `k`. */
  ghost predicate TableOk(table: seq<bv32>, n: nat) {
    |table| == 256 && forall k :: 0 <= k < 256 ==> table[k] == Iterate(BitStep, k as bv32, n)
  }

  lemma IndexBelow(y: bv32)
    ensures (y & 0xFF) as int < 256
  {
  }

  lemma IndexWord(y: bv32)
    ensures (y as int) as bv32 == y
  {
  }

  lemma EntryAt(table: seq<bv32>, y: bv32, n: nat)
    requires TableOk(table, n)
    ensures (y & 0xFF) as int < 256 && table[(y & 0xFF) as int] == Iterate(BitStep, y & 0xFF, n)
  {
    IndexBelow(y);
    IndexWord(y & 0xFF);
  }

  lemma StepByMask(crc: bv32, mask: bv32)
    requires mask == if crc & 1 == 1 then 0xFFFF_FFFF else 0
    ensures (crc >> 1) ^ (0xEDB88320 & mask) == BitStep(crc)
  {
    if crc & 1 == 1 { FullMask(crc >> 1); } else { EmptyMask(crc >> 1); }
  }

  lemma FullMask(x: bv32)
    ensures x ^ (0xEDB88320 & 0xFFFF_FFFF) == x ^ 0xEDB88320
  {
  }

  lemma EmptyMask(x: bv32)
    ensures x ^ (0xEDB88320 & 0) == x
  {
  }

  class Table {
    const crctab: array<bv32>
    var initialized: bool
    ghost const steps: nat // always 8; a variable keeps the solver from unrolling the steps

    ghost predicate Valid()
      reads this, crctab
    {
      steps == 8 && crctab.Length == 256 && (initialized ==> TableOk(crctab[..], steps))
    }

    constructor ()
      ensures Valid() && fresh(crctab) && !initialized
    {
      crctab := new bv32[256];
      initialized := false;
      steps := 8;
    }

    /** Fills the table. */
    method CrcInit()
      requires crctab.Length == 256 && steps == 8
      modifies crctab
      ensures TableOk(crctab[..], steps)
    {
      var i := 0;
      while i < 256
        invariant 0 <= i <= 256
        invariant forall k :: 0 <= k < i ==> crctab[k] == Iterate(BitStep, k as bv32, steps)
      {
        var crc := CrcEntry(i, steps);
        crctab[i] := crc;
        i := i + 1;
      }
    }

    /** The inner loop of the table set-up. */
    static method CrcEntry(i: nat, ghost n: nat) returns (crc: bv32)
      requires i < 256 && n == 8
      ensures crc == Iterate(BitStep, i as bv32, n)
    {
      crc := i as bv32;
      var j := 0;
      while j < 8
        invariant 0 <= j <= n
        invariant Iterate(BitStep, crc, n - j) == Iterate(BitStep, i as bv32, n)
      {
        var mask: bv32 := if crc & 1 == 1 then 0xFFFF_FFFF else 0;
        StepByMask(crc, mask);
        crc := (crc >> 1) ^ (0xEDB88320 & mask);
        j := j + 1;
      }
    }

    /** The table-driven checksum. */
    method Crc(data: seq<Byte>, start: bv32) returns (r: bv32)
      requires crctab.Length == 256 && steps == 8 && TableOk(crctab[..], steps)
      ensures r == CrcFrom(start, data)
    {
      var result := start;
      var i := 0;
      assert data[i..] == data;
      while i < |data|
        invariant 0 <= i <= |data|
        invariant CrcFrom(result, data[i..]) == CrcFrom(start, data)
      {
        result := NextResult(result, data[i..]);
        assert data[i..][1..] == data[i + 1..];
        i := i + 1;
      }
      CrcOfNothing(result, data[i..]);
      r := !result;
    }

    /** The loop body of the checksum: the next byte by one look-up. */
    method NextResult(result: bv32, rest: seq<Byte>) returns (next: bv32)
      requires crctab.Length == 256 && steps == 8 && TableOk(crctab[..], steps) && rest != []
      ensures CrcFrom(result, rest) == CrcFrom(next, rest[1..])
    {
      var byte := rest[0];
      var entry := Entry(result ^ byte as bv32);
      next := (result >> 8) ^ entry;
      ByteTaken(result, rest, byte, entry, next, steps);
    }

    /** The table access, by the low byte. */
    method Entry(y: bv32) returns (entry: bv32)
      requires crctab.Length == 256 && TableOk(crctab[..], steps)
      ensures entry == Iterate(BitStep, y & 0xFF, steps)
    {
      EntryAt(crctab[..], y, steps);
      entry := crctab[(y & 0xFF) as int];
    }

    method Crc32BytesFromPrevious(data: seq<Byte>, previousChecksum: bv32) returns (r: bv32)
      requires Valid()
      modifies this, crctab
      ensures Valid() && initialized
      ensures r == CrcFrom(Not(previousChecksum), data)
      ensures forall a: seq<Byte> {:trigger CrcOf(a)} :: previousChecksum == CrcOf(a) ==> r == CrcOf(a + data)
    {
      if !initialized {
        CrcInit();
        initialized := true;
      }
      r := Crc(data, !previousChecksum);
      forall a: seq<Byte> {:trigger CrcOf(a)} | previousChecksum == CrcOf(a) ensures r == CrcOf(a + data) {
        CrcContinues(a, data);
      }
    }

    method Crc32Bytes(data: seq<Byte>) returns (r: bv32)
      requires Valid()
      modifies this, crctab
      ensures Valid() && initialized
      ensures r == CrcOf(data)
    {
      if !initialized {
        CrcInit();
        initialized := true;
      }
      r := Crc(data, PRESET);
    }
  }
}
