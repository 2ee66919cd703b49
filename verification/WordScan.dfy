/** Scanning byte strings a word at a time. */
module WordScan {

  type byte = bv8

  const PERCENT: byte := 0x25

  /** The 32-bit word made of four bytes in memory order. */
  function Word(b0: byte, b1: byte, b2: byte, b3: byte): bv32 {
    (b0 as bv32) | ((b1 as bv32) << 8) | ((b2 as bv32) << 16) | ((b3 as bv32) << 24)
  }

  predicate HasZero(v: bv32) {
    (v - 0x01010101) & (!v & 0x80808080) != 0
  }

  predicate HasPercent(v: bv32) {
    ((v ^ 0x25252525) - 0x01010101) & (!v & 0x80808080) != 0
  }

  /** The test for a zero byte is exact. */
  lemma HasZeroExact(b0: byte, b1: byte, b2: byte, b3: byte)
    ensures HasZero(Word(b0, b1, b2, b3)) <==> b0 == 0 || b1 == 0 || b2 == 0 || b3 == 0
  {
  }

  /** The test for a percent sign is exact. */
  lemma HasPercentExact(b0: byte, b1: byte, b2: byte, b3: byte)
    ensures HasPercent(Word(b0, b1, b2, b3)) <==> b0 == PERCENT || b1 == PERCENT || b2 == PERCENT || b3 == PERCENT
  {
  }

  /** The length of the string at the front of `s`. */
  function Length(s: seq<byte>): (n: nat)
    ensures n <= |s| && (n < |s| ==> s[n] == 0) && forall i :: 0 <= i < n ==> s[i] != 0
  {
    if s == [] || s[0] == 0 then 0 else 1 + Length(s[1..])
  }

  ghost predicate NoZero(s: seq<byte>, n: nat) {
    n <= |s| && forall i :: 0 <= i < n ==> s[i] != 0
  }

  lemma LengthAtLeast(s: seq<byte>, n: nat)
    requires NoZero(s, n)
    ensures Length(s) >= n
  {
  }

  function Min(a: nat, b: nat): nat {
    if a < b then a else b
  }

  /** The word at offset `i`. */
  function WordAt(s: seq<byte>, i: nat): bv32
    requires i + 4 <= |s|
  {
    Word(s[i], s[i + 1], s[i + 2], s[i + 3])
  }

  /**
   The length of the string at `address`, at most `limit`. Words are read at aligned addresses only,
   so the memory read ends at most at the next multiple of four.
   */
  method StrlenLimited(s: seq<byte>, address: nat, limit: nat) returns (n: nat)
    requires (address + |s|) % 4 == 0 && (0 in s || limit <= |s|)
    ensures n == Min(Length(s), limit)
  {
    var left := limit;
    n := 0;
    while (address + n) % 4 != 0
      invariant NoZero(s, n) && n + left == limit
      decreases |s| - n
    {
      LengthAtLeast(s, n);
      if left == 0 || s[n] == 0 {
        return;
      }
      n := n + 1;
      left := left - 1;
    }
    while left >= 4
      invariant NoZero(s, n) && n + left == limit && (address + n) % 4 == 0
      decreases left
    {
      Unfinished(s, address, n, limit);
      HasZeroExact(s[n], s[n + 1], s[n + 2], s[n + 3]);
      if HasZero(WordAt(s, n)) {
        break;
      }
      n := n + 4;
      left := left - 4;
    }
    LengthAtLeast(s, n);
    while left != 0 && s[n] != 0
      invariant NoZero(s, n) && n + left == limit
      invariant left != 0 ==> n < |s|
      decreases left
    {
      n := n + 1;
      left := left - 1;
      LengthAtLeast(s, n);
    }
  }

  lemma Unfinished(s: seq<byte>, address: nat, n: nat, limit: nat)
    requires (address + |s|) % 4 == 0 && (0 in s || limit <= |s|)
    requires NoZero(s, n) && n + 4 <= limit && (address + n) % 4 == 0
    ensures n + 4 <= |s|
  {
  }
}
