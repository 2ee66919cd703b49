/** The conversion loops: decimal in chunks of eight digits, and power-of-two radices. */
module FormatConvert {
  import opened WordScan
  import opened FormatNumber

  /** `a` times ten to the power of 8 - i. */
  function Scaled(a: nat, i: nat): nat
    requires i <= 8
  {
    if i == 0 then a * 100000000 else if i == 1 then a * 10000000 else if i == 2 then a * 1000000
    else if i == 3 then a * 100000 else if i == 4 then a * 10000 else if i == 5 then a * 1000
    else if i == 6 then a * 100 else if i == 7 then a * 10 else a
  }

  lemma ScaledStep(a: nat, i: nat)
    requires i < 8
    ensures Scaled(a, i) == 10 * Scaled(a, i + 1)
  {
  }

  lemma AddTens(a: nat, z: nat)
    ensures Quotient(10 * a + z, 10) == a + Quotient(z, 10) && Remainder(10 * a + z, 10) == Remainder(z, 10)
  {
    DivisionIs(10 * a + z, 10);
    DivisionIs(z, 10);
  }

  /** Taking digits off the low chunk is taking digits off the number. */
  lemma {:induction false} ChunkShift(high: nat, low: nat, i: nat)
    requires i <= 8
    ensures Shift(high * CHUNK + low, 10, i) == Scaled(high, i) + Shift(low, 10, i)
  {
    if i > 0 {
      ChunkShift(high, low, i - 1);
      ScaledStep(high, i - 1);
      AddTens(Scaled(high, i), Shift(low, 10, i - 1));
    }
  }

  lemma ChunkDigit(high: nat, low: nat, i: nat)
    requires i < 8
    ensures Remainder(Shift(high * CHUNK + low, 10, i), 10) == Remainder(Shift(low, 10, i), 10)
  {
    ChunkShift(high, low, i);
    ScaledStep(high, i);
    AddTens(Scaled(high, i + 1), Shift(low, 10, i));
  }

  lemma {:induction false} ChunkBound(low: nat, i: nat)
    requires low < CHUNK && i <= 8
    ensures Shift(low, 10, i) < Scaled(1, i)
  {
    if i > 0 {
      ChunkBound(low, i - 1);
      ScaledStep(1, i - 1);
      DivisionIs(Shift(low, 10, i - 1), 10);
    }
  }

  /** Eight digits further on only the high part is left. */
  lemma ChunkDone(high: nat, low: nat)
    requires low < CHUNK
    ensures Shift(low, 10, 8) == 0 && Shift(high * CHUNK + low, 10, 8) == high
  {
    ChunkBound(low, 8);
    ChunkShift(high, low, 8);
  }

  /** The last `k` digits of a row. */
  function Tail(all: seq<nat>, k: nat): seq<nat>
    requires k <= |all|
  {
    all[|all| - k..]
  }

  /** Digit number `i`, counted from the right. */
  function Nth(all: seq<nat>, i: nat): nat
    requires i < |all|
  {
    all[|all| - 1 - i]
  }

  predicate Small(all: seq<nat>) {
    forall i :: 0 <= i < |all| ==> all[i] < 16
  }

  lemma {:induction false} LowTail(n: nat, radix: nat, k: nat, m: nat)
    requires IsRadix(radix) && k <= m
    ensures Tail(Low(n, radix, m), k) == Low(n, radix, k)
    decreases m
  {
    if k < m {
      LowTail(n, radix, k, m - 1);
      TailOf(Remainder(Shift(n, radix, m - 1), radix), Low(n, radix, m - 1), k);
    } else {
      assert Tail(Low(n, radix, m), m) == Low(n, radix, m);
    }
  }

  lemma TailOf(x: nat, d: seq<nat>, k: nat)
    requires k <= |d|
    ensures Tail([x] + d, k) == Tail(d, k)
  {
  }

  lemma LowNth(n: nat, radix: nat, k: nat, m: nat)
    requires IsRadix(radix) && k < m
    ensures Nth(Low(n, radix, m), k) == Remainder(Shift(n, radix, k), radix)
  {
    LowTail(n, radix, k + 1, m);
    assert Nth(Low(n, radix, m), k) == Tail(Low(n, radix, m), k + 1)[0];
  }

  /** What is left of a chunk after each digit, and the digits it holds: those from number `k` on. */
  ghost predicate Chunk(rest: seq<nat>, low: nat, all: seq<nat>, k: nat) {
    && |rest| == 9 && rest[0] == low && rest[8] == 0 && k + 8 <= |all|
    && forall i :: 0 <= i < 8 ==> Peeled(rest, all, k, i)
  }

  predicate Peeled(rest: seq<nat>, all: seq<nat>, k: nat, i: nat)
    requires i + 1 < |rest| && k + i < |all|
  {
    rest[i + 1] == rest[i] / 10 && rest[i] % 10 == Nth(all, k + i)
  }

  function Rests(low: nat, i: nat): (rest: seq<nat>)
    ensures |rest| == i + 1
  {
    if i == 0 then [low] else Rests(low, i - 1) + [Shift(low, 10, i)]
  }

  lemma {:induction false} RestsAt(low: nat, n: nat, i: nat)
    requires i <= n
    ensures Rests(low, n)[i] == Shift(low, 10, i)
  {
    if i < n { RestsAt(low, n - 1, i); }
  }

  lemma ChunkPeeled(n: nat, m: nat, k: nat, high: nat, low: nat, rest: seq<nat>, i: nat)
    requires Shift(n, 10, k) == high * CHUNK + low && k + 8 <= m && i < 8
    requires |rest| == 9 && rest[i] == Shift(low, 10, i) && rest[i + 1] == Shift(low, 10, i + 1)
    ensures Peeled(rest, Low(n, 10, m), k, i)
  {
    ShiftShift(n, 10, k, i);
    ChunkDigit(high, low, i);
    LowNth(n, 10, k + i, m);
    DivisionIs(Shift(low, 10, i), 10);
  }

  lemma IsChunk(n: nat, m: nat, k: nat, high: nat, low: nat) returns (rest: seq<nat>)
    requires low < CHUNK && Shift(n, 10, k) == high * CHUNK + low && k + 8 <= m
    ensures Chunk(rest, low, Low(n, 10, m), k) && Shift(n, 10, k + 8) == high
    ensures forall i :: 0 <= i <= 8 ==> rest[i] == Shift(low, 10, i)
  {
    var size: nat := 8;
    rest := Rests(low, size);
    forall i | 0 <= i <= 8 ensures rest[i] == Shift(low, 10, i) {
      RestsAt(low, size, i);
    }
    forall i | 0 <= i < 8 ensures Peeled(rest, Low(n, 10, m), k, i) {
      ChunkPeeled(n, m, k, high, low, rest, i);
    }
    ChunkDone(high, low);
    ShiftShift(n, 10, k, 8);
  }

  /** The last `k` digits have been written. */
  ghost predicate Written(s: seq<byte>, all: seq<nat>, st: Style, k: nat) {
    Proper(st) && Small(all) && k <= |all| && s == Spelled(Tail(all, k), st)
  }

  lemma WrittenMore(s: seq<byte>, all: seq<nat>, st: Style, k: nat)
    requires Written(s, all, st, k) && k < |all|
    ensures if CommaDue(st, k) then Written([st.table[Nth(all, k)], COMMA] + s, all, st, k + 1)
      else Written([st.table[Nth(all, k)]] + s, all, st, k + 1)
  {
    SpelledMore(Nth(all, k), Tail(all, k), st);
    assert Tail(all, k + 1) == [Nth(all, k)] + Tail(all, k);
    if CommaDue(st, k) { assert [st.table[Nth(all, k)], COMMA] + s == [st.table[Nth(all, k)]] + ([COMMA] + s); }
  }

  const PLAIN := Style(LOWER, 0)
  const GROUPED := Style(LOWER, 3)

  /** The two characters of the digit pair table for a number below 100. */
  function Pair(v: nat): seq<byte>
    requires v < 100
  {
    [LOWER[v / 10], LOWER[v % 10]]
  }

  lemma PairWritten(s: seq<byte>, all: seq<nat>, st: Style, k: nat, x: nat, y: nat)
    requires Written(s, all, st, k) && st.group == 0 && k + 1 < |all| && x == Nth(all, k + 1) && y == Nth(all, k)
    ensures Written([st.table[x], st.table[y]] + s, all, st, k + 2)
  {
    WrittenMore(s, all, st, k);
    WrittenMore([st.table[y]] + s, all, st, k + 1);
    assert [st.table[x], st.table[y]] + s == [st.table[x]] + ([st.table[y]] + s);
  }

  lemma TwoDigits(m: nat)
    ensures m / 100 == m / 10 / 10 && (m % 100) % 10 == m % 10 && (m % 100) / 10 == (m / 10) % 10
  {
    var q, r := m / 100, m % 100;
    assert m / 10 == 10 * q + r / 10;
  }

  lemma PairStep(s: seq<byte>, all: seq<nat>, k: nat, low: nat, rest: seq<nat>, i: nat)
    requires Chunk(rest, low, all, k) && i < 7 && Written(s, all, PLAIN, k + i)
    ensures Written(Pair(rest[i] % 100) + s, all, PLAIN, k + i + 2) && rest[i] / 100 == rest[i + 2]
  {
    assert Peeled(rest, all, k, i) && Peeled(rest, all, k, i + 1);
    TwoDigits(rest[i]);
    PairWritten(s, all, PLAIN, k + i, (rest[i] % 100) / 10, (rest[i] % 100) % 10);
  }

  method PutPair(s: seq<byte>, m: nat, ghost all: seq<nat>, ghost k: nat, ghost low: nat, ghost rest: seq<nat>,
                 ghost i: nat)
    returns (t: seq<byte>, q: nat)
    requires Chunk(rest, low, all, k) && i < 7 && Written(s, all, PLAIN, k + i) && m == rest[i]
    ensures |t| == |s| + 2 && Written(t, all, PLAIN, k + i + 2) && q == rest[i + 2]
  {
    PairStep(s, all, k, low, rest, i);
    t := Pair(m % 100) + s;
    q := m / 100;
  }

  /** Writes the digits of a chunk in pairs, at least one pair. */
  method WritePairs(s0: seq<byte>, low: nat, ghost all: seq<nat>, ghost k: nat, ghost rest: seq<nat>)
    returns (s: seq<byte>, ghost i: nat)
    requires Chunk(rest, low, all, k) && Written(s0, all, PLAIN, k)
    ensures 2 <= i <= 8 && |s| == |s0| + i && Written(s, all, PLAIN, k + i)
    ensures rest[i] == 0 && (i > 2 ==> rest[i - 2] != 0)
  {
    var m;
    ghost var pairs := 1;
    s, m := PutPair(s0, low, all, k, low, rest, 0);
    while m != 0
      invariant 1 <= pairs <= 4 && m == rest[2 * pairs] && |s| == |s0| + 2 * pairs
      invariant Written(s, all, PLAIN, k + 2 * pairs)
      invariant pairs > 1 ==> rest[2 * pairs - 2] != 0
      decreases 4 - pairs
    {
      s, m := PutPair(s, m, all, k, low, rest, 2 * pairs);
      pairs := pairs + 1;
    }
    i := 2 * pairs;
  }

  /** The state of a grouped row: `l` digits since the last comma, or a comma just written. */
  ghost predicate Grouping(s: seq<byte>, l: nat, all: seq<nat>, k: nat) {
    && Proper(GROUPED) && Small(all) && k <= |all|
    && if l == 0 && k > 0 then CommaDue(GROUPED, k) && s == [COMMA] + Spelled(Tail(all, k), GROUPED)
       else l == Phase(k, 3) && Written(s, all, GROUPED, k)
  }

  /** The same, kept together as one fact. */
  ghost predicate InGroups(s: seq<byte>, l: nat, all: seq<nat>, k: nat) {
    exists x: nat :: x == k && Grouping(s, l, all, x)
  }

  lemma GroupedComma(s: seq<byte>, all: seq<nat>, k: nat)
    requires InGroups(s, 3, all, k)
    ensures InGroups([COMMA] + s, 0, all, k)
  {
    assert Grouping([COMMA] + s, 0, all, k);
  }

  lemma GroupedDigit(s: seq<byte>, l: nat, all: seq<nat>, k: nat)
    requires InGroups(s, l, all, k) && k < |all| && l != 3
    ensures l < 3 && InGroups([LOWER[Nth(all, k)]] + s, l + 1, all, k + 1)
  {
    if l == 0 && k > 0 {
      WrittenMore(Spelled(Tail(all, k), GROUPED), all, GROUPED, k);
      assert [LOWER[Nth(all, k)], COMMA] + Spelled(Tail(all, k), GROUPED) == [LOWER[Nth(all, k)]] + s;
    } else {
      WrittenMore(s, all, GROUPED, k);
    }
    assert Grouping([LOWER[Nth(all, k)]] + s, l + 1, all, k + 1);
  }

  /** Writes the digits of a chunk with commas, up to its highest digit that is not zero. */
  method WriteGrouped(s0: seq<byte>, l0: nat, low: nat, ghost all: seq<nat>, ghost k: nat, ghost rest: seq<nat>)
    returns (s: seq<byte>, l: nat, commas: nat, ghost i: nat)
    requires Chunk(rest, low, all, k) && InGroups(s0, l0, all, k) && (k > 0 ==> l0 > 0)
    ensures i <= 8 && InGroups(s, l, all, k + i) && (k + i > 0 ==> l > 0) && |s| == |s0| + i + commas
    ensures rest[i] == 0 && (i > 0 ==> rest[i - 1] != 0)
  {
    s, l, i, commas := s0, l0, 0, 0;
    var m := low;
    while m != 0
      invariant i <= 8 && m == rest[i] && InGroups(s, l, all, k + i) && |s| == |s0| + i + commas
      invariant m == 0 && k + i > 0 ==> l > 0
      invariant i > 0 ==> rest[i - 1] != 0
      decreases 8 - i, l
    {
      if l == 3 {
        GroupedComma(s, all, k + i);
        l := 0;
        s := [COMMA] + s;
        commas := commas + 1;
      } else {
        s, m := PutDigit(s, l, m, all, k, low, rest, i);
        l := l + 1;
        i := i + 1;
      }
    }
  }

  method PutDigit(s: seq<byte>, ghost l: nat, m: nat, ghost all: seq<nat>, ghost k: nat, ghost low: nat,
                  ghost rest: seq<nat>, ghost i: nat)
    returns (t: seq<byte>, q: nat)
    requires Chunk(rest, low, all, k) && i < 8 && InGroups(s, l, all, k + i) && m == rest[i] && l != 3
    ensures l < 3 && |t| == |s| + 1 && InGroups(t, l + 1, all, k + i + 1) && q == rest[i + 1]
  {
    assert Peeled(rest, all, k, i);
    GroupedDigit(s, l, all, k + i);
    t := [LOWER[m % 10]] + s;
    q := m / 10;
  }

  lemma {:induction false} StaysZero(rest: seq<nat>, low: nat, all: seq<nat>, k: nat, i: nat, j: nat)
    requires Chunk(rest, low, all, k) && i <= j < 8 && rest[i] == 0
    ensures rest[j] == 0 && Nth(all, k + j) == 0
    decreases j
  {
    assert Peeled(rest, all, k, j);
    if i < j {
      StaysZero(rest, low, all, k, i, j - 1);
      assert Peeled(rest, all, k, j - 1);
    }
  }

  /** Fills a chunk up with zeros. */
  method PadPlain(s0: seq<byte>, end: nat, ghost low: nat, ghost all: seq<nat>, ghost k: nat, ghost rest: seq<nat>,
                  ghost i: nat)
    returns (s: seq<byte>)
    requires Chunk(rest, low, all, k) && i <= 8 && rest[i] == 0 && Written(s0, all, PLAIN, k + i)
    requires end == |s0| + (8 - i)
    ensures Written(s, all, PLAIN, k + 8)
  {
    s := s0;
    ghost var j := i;
    while |s| != end
      invariant i <= j <= 8 && Written(s, all, PLAIN, k + j) && end == |s| + (8 - j)
      decreases 8 - j
    {
      StaysZero(rest, low, all, k, i, j);
      WrittenMore(s, all, PLAIN, k + j);
      s := [LOWER[0]] + s;
      j := j + 1;
    }
  }

  lemma ZeroStep(s: seq<byte>, l: nat, low: nat, all: seq<nat>, k: nat, rest: seq<nat>, i: nat, j: nat)
    requires Chunk(rest, low, all, k) && i <= j < 8 && rest[i] == 0 && InGroups(s, l, all, k + j) && l != 3
    ensures l < 3 && InGroups([LOWER[0]] + s, l + 1, all, k + j + 1)
  {
    StaysZero(rest, low, all, k, i, j);
    GroupedDigit(s, l, all, k + j);
  }

  method PadGrouped(s0: seq<byte>, l0: nat, end0: nat, ghost low: nat, ghost all: seq<nat>, ghost k: nat,
                    ghost rest: seq<nat>, ghost i: nat)
    returns (s: seq<byte>, l: nat)
    requires Chunk(rest, low, all, k) && i <= 8 && rest[i] == 0 && InGroups(s0, l0, all, k + i)
    requires k + i > 0 ==> l0 > 0
    requires end0 == |s0| + (8 - i)
    ensures InGroups(s, l, all, k + 8) && l > 0
  {
    s, l := s0, l0;
    var end := end0;
    ghost var j := i;
    while |s| != end
      invariant i <= j <= 8 && InGroups(s, l, all, k + j) && end == |s| + (8 - j)
      invariant j == 8 ==> l > 0
      decreases 8 - j, l
    {
      if l == 3 {
        GroupedComma(s, all, k + j);
        l := 0;
        s := [COMMA] + s;
        end := end + 1;
      } else {
        ZeroStep(s, l, low, all, k, rest, i, j);
        l := l + 1;
        s := [LOWER[0]] + s;
        j := j + 1;
      }
    }
  }

  /** The digits of 64-bit numbers fit in three chunks. */
  lemma ThreeChunks(n: nat, k: nat)
    requires n < WORD && (k == 0 || k == 8 || k == 16)
    ensures k == 16 ==> Shift(n, 10, k) < CHUNK
  {
    var x := n / CHUNK;
    ChunkDone(x, n % CHUNK);
    ChunkDone(x / CHUNK, x % CHUNK);
    ShiftShift(n, 10, 8, 8);
  }

  /** The last chunk has been written: its digits are all there is. */
  lemma TopChunk(n: nat, k: nat, low: nat, i: nat)
    requires Shift(n, 10, k) == low && Shift(low, 10, i) == 0 && (i > 0 ==> Shift(low, 10, i - 1) != 0) && k + i > 0
    requires i == 0 ==> low == 0
    requires low == 0 ==> k == 0
    ensures Canonical(n, 10, k + i)
  {
    ShiftShift(n, 10, k, i);
    if i > 0 { ShiftShift(n, 10, k, i - 1); }
  }

  lemma WrittenIsSpelled(s: seq<byte>, n: nat, m: nat, st: Style, k: nat)
    requires Written(s, Low(n, 10, m), st, k) && Canonical(n, 10, k)
    ensures s == Spelled(Digits(n, 10), st)
  {
    LowTail(n, 10, k, m);
    CanonicalDigits(n, 10, k);
  }

  lemma LowSmall(n: nat, m: nat)
    ensures Small(Low(n, 10, m))
  {
  }

  /** Between chunks: `k` digits of `n` have been written and `n64` is what is left. */
  ghost predicate Between(n: nat, all: seq<nat>, k: nat, n64: nat) {
    && n < WORD && (k == 0 || k == 8 || k == 16) && n64 == Shift(n, 10, k) && (n64 == 0 ==> k == 0)
    && |all| == 24 && all == Low(n, 10, |all|)
  }

  /** The number has been written, except that nothing has been written for zero. */
  ghost predicate Finished(s: seq<byte>, n: nat, all: seq<nat>, st: Style) {
    (n == 0 && s == []) || (Proper(st) && s == Spelled(Digits(n, 10), st))
  }

  lemma SplitChunk(n: nat, all: seq<nat>, k: nat, n64: nat, high: nat, low: nat) returns (rest: seq<nat>)
    requires Between(n, all, k, n64) && low < CHUNK && n64 == high * CHUNK + low
    ensures Chunk(rest, low, all, k) && (forall i :: 0 <= i <= 8 ==> rest[i] == Shift(low, 10, i))
    ensures high != 0 ==> Between(n, all, k + 8, high)
  {
    ThreeChunks(n, k);
    rest := IsChunk(n, |all|, k, high, low);
  }

  lemma TopWritten(s: seq<byte>, n: nat, all: seq<nat>, st: Style, k: nat, low: nat, i: nat)
    requires Between(n, all, k, low) && i <= 8 && Written(s, all, st, k + i)
    requires Shift(low, 10, i) == 0 && (i > 0 ==> Shift(low, 10, i - 1) != 0)
    ensures Finished(s, n, all, st)
  {
    if k + i > 0 {
      TopChunk(n, k, low, i);
      WrittenIsSpelled(s, n, |all|, st, k + i);
    }
  }

  /** One chunk of the conversion with commas. */
  method GroupedChunk(s0: seq<byte>, l0: nat, n64: nat, ghost n: nat, ghost all: seq<nat>, ghost k: nat)
    returns (s: seq<byte>, l: nat, high: nat)
    requires Between(n, all, k, n64) && InGroups(s0, l0, all, k) && (k > 0 ==> l0 > 0)
    ensures if high == 0 then Finished(s, n, all, GROUPED)
      else Between(n, all, k + 8, high) && InGroups(s, l, all, k + 8) && l > 0
  {
    var low;
    if n64 >= CHUNK {
      low, high := n64 % CHUNK, n64 / CHUNK;
    } else {
      low, high := n64, 0;
    }
    ghost var rest := SplitChunk(n, all, k, n64, high, low);
    ghost var i;
    var end, commas := |s0| + 8, 0;
    s, l, commas, i := WriteGrouped(s0, l0, low, all, k, rest);
    if high == 0 {
      TopWritten(s, n, all, GROUPED, k, low, i);
    } else {
      s, l := PadGrouped(s, l, end + commas, low, all, k, rest, i);
    }
  }

  /** The conversion with commas. */
  method DecimalGrouped(n: nat) returns (s: seq<byte>)
    requires n < WORD
    ensures Proper(GROUPED) && s == Spelled(Digits(n, 10), GROUPED)
  {
    ghost var size: nat := 24;
    ghost var all, k := Low(n, 10, size), 0;
    var n64, l := n, 0;
    s := [];
    Tables();
    LowSmall(n, size);
    assert Grouping([], 0, all, 0);
    var done := false;
    while !done
      invariant if done then Finished(s, n, all, GROUPED)
        else Between(n, all, k, n64) && InGroups(s, l, all, k) && (k > 0 ==> l > 0)
      decreases 24 - k, if done then 0 else 1
    {
      s, l, n64 := GroupedChunk(s, l, n64, n, all, k);
      if n64 == 0 {
        done := true;
      } else {
        k := k + 8;
      }
    }
    s := SomeDigit(s, n, all, GROUPED);
  }

  /** Zero, for which nothing has been written, is written as one digit. */
  method SomeDigit(s0: seq<byte>, ghost n: nat, ghost all: seq<nat>, st: Style) returns (s: seq<byte>)
    requires Finished(s0, n, all, st) && Proper(st) && st.table == LOWER
    ensures s == Spelled(Digits(n, 10), st)
  {
    s := s0;
    SpelledNonEmpty(Digits(n, 10), st);
    if |s| == 0 {
      s := [LOWER[0]];
      SpelledOne(st);
    }
  }

  lemma SpelledNonEmpty(d: seq<nat>, st: Style)
    requires Proper(st) && d != [] && Small(d)
    ensures Spelled(d, st) != []
  {
  }

  lemma SpelledOne(st: Style)
    requires Proper(st)
    ensures Spelled([0], st) == [st.table[0]] && Digits(0, 10) == [0]
  {
    assert Phase(0, 3) == 0;
  }

  lemma TopValue(n: nat, m: nat, k: nat, low: nat, i: nat)
    requires Shift(n, 10, k) == low && 1 <= i && k + i <= m && Shift(low, 10, i) == 0
    ensures Nth(Low(n, 10, m), k + i - 1) == Shift(low, 10, i - 1) < 10
  {
    LowNth(n, 10, k + i - 1, m);
    ShiftShift(n, 10, k, i - 1);
  }

  lemma TopCharacter(s: seq<byte>, all: seq<nat>, st: Style, k: nat)
    requires Written(s, all, st, k) && st.group == 0 && k > 0
    ensures s == [st.table[Nth(all, k - 1)]] + Spelled(Tail(all, k - 1), st)
  {
    assert Tail(all, k) == [Nth(all, k - 1)] + Tail(all, k - 1);
    SpelledMore(Nth(all, k - 1), Tail(all, k - 1), st);
  }

  lemma TopDigit(s: seq<byte>, n: nat, all: seq<nat>, k: nat, low: nat, i: nat) returns (x: nat)
    requires Between(n, all, k, low) && 1 <= i <= 8 && Written(s, all, PLAIN, k + i) && Shift(low, 10, i) == 0
    ensures x == Shift(low, 10, i - 1) < 10 && s == [LOWER[x]] + Spelled(Tail(all, k + i - 1), PLAIN)
  {
    x := Shift(low, 10, i - 1);
    TopValue(n, |all|, k, low, i);
    TopCharacter(s, all, PLAIN, k + i);
  }

  lemma DroppedCanonical(n: nat, k: nat, low: nat, i: nat)
    requires Shift(n, 10, k) == low && i >= 2 && Shift(low, 10, i - 1) == 0 && (i > 2 ==> Shift(low, 10, i - 2) != 0)
    requires low == 0 ==> k == 0
    ensures Canonical(n, 10, k + i - 1)
  {
    ShiftShift(n, 10, k, i - 1);
    ShiftShift(n, 10, k, i - 2);
  }

  /** Drops the zero that a pair may begin with. */
  lemma DropZero(s: seq<byte>, n: nat, all: seq<nat>, k: nat, low: nat, i: nat)
    requires Between(n, all, k, low) && 2 <= i <= 8 && Written(s, all, PLAIN, k + i)
    requires Shift(low, 10, i) == 0 && (i > 2 ==> Shift(low, 10, i - 2) != 0)
    ensures s != [] && Finished(if s[0] == LOWER[0] then s[1..] else s, n, all, PLAIN)
  {
    var x := TopDigit(s, n, all, k, low, i);
    DigitTable(x);
    if x == 0 {
      DroppedCanonical(n, k, low, i);
      assert Written(s[1..], all, PLAIN, k + i - 1);
      WrittenIsSpelled(s[1..], n, |all|, PLAIN, k + i - 1);
    } else {
      TopWritten(s, n, all, PLAIN, k, low, i);
    }
  }

  lemma DigitTable(x: nat)
    requires x < 10
    ensures LOWER[x] == LOWER[0] <==> x == 0
  {
  }

  /** One chunk of the conversion in pairs. */
  method PlainChunk(s0: seq<byte>, n64: nat, ghost n: nat, ghost all: seq<nat>, ghost k: nat)
    returns (s: seq<byte>, high: nat)
    requires Between(n, all, k, n64) && Written(s0, all, PLAIN, k)
    ensures if high == 0 then Finished(s, n, all, PLAIN)
      else Between(n, all, k + 8, high) && Written(s, all, PLAIN, k + 8)
  {
    var low;
    if n64 >= CHUNK {
      low, high := n64 % CHUNK, n64 / CHUNK;
    } else {
      low, high := n64, 0;
    }
    ghost var rest := SplitChunk(n, all, k, n64, high, low);
    ghost var i;
    var end := |s0| + 8;
    s, i := WritePairs(s0, low, all, k, rest);
    if high == 0 {
      DropZero(s, n, all, k, low, i);
      if s[0] == LOWER[0] {
        s := s[1..];
      }
    } else {
      s := PadPlain(s, end, low, all, k, rest, i);
    }
  }

  /** The conversion without commas yields the canonical decimal digits. */
  method DecimalPlain(n: nat) returns (s: seq<byte>)
    requires n < WORD
    ensures Proper(PLAIN) && s == Spelled(Digits(n, 10), PLAIN)
  {
    ghost var size: nat := 24;
    ghost var all, k := Low(n, 10, size), 0;
    var n64 := n;
    s := [];
    Tables();
    LowSmall(n, size);
    var done := false;
    while !done
      invariant if done then Finished(s, n, all, PLAIN) else Between(n, all, k, n64) && Written(s, all, PLAIN, k)
      decreases 24 - k, if done then 0 else 1
    {
      s, n64 := PlainChunk(s, n64, n, all, k);
      if n64 == 0 {
        done := true;
      } else {
        k := k + 8;
      }
    }
    s := SomeDigit(s, n, all, PLAIN);
  }

  /** The row has `k` digits, and the comma that the next digit needs. */
  ghost predicate Ready(s: seq<byte>, l: nat, n: nat, radix: nat, st: Style, k: nat) {
    && IsRadix(radix) && Proper(st) && s == Separated(Low(n, radix, k), st)
    && (st.group > 0 ==> l == if CommaDue(st, k) then 0 else Phase(k, st.group))
  }

  lemma RadixStep(s: seq<byte>, l: nat, n: nat, radix: nat, st: Style, k: nat)
    requires Ready(s, l, n, radix, st, k)
    ensures var t := [st.table[Remainder(Shift(n, radix, k), radix)]] + s;
      && t == Spelled(Low(n, radix, k + 1), st)
      && (st.group == 0 ==> Ready(t, l, n, radix, st, k + 1))
      && (st.group > 0 ==> l + 1 == Phase(k + 1, st.group))
      && (st.group > 0 && l + 1 == st.group ==> Ready([COMMA] + t, 0, n, radix, st, k + 1))
      && (st.group > 0 && l + 1 != st.group ==> Ready(t, l + 1, n, radix, st, k + 1))
  {
    SpelledMore(Remainder(Shift(n, radix, k), radix), Low(n, radix, k), st);
  }

  /** `k` digits suffice for the number and the precision, and fewer do not. */
  ghost predicate Enough(n: nat, radix: nat, st: Style, pr: int, k: nat) {
    && IsRadix(radix) && Proper(st) && k >= 1 && Shift(n, radix, k) == 0 && |Spelled(Low(n, radix, k), st)| >= pr
    && (k > 1 ==> Shift(n, radix, k - 1) != 0 || |Spelled(Low(n, radix, k - 1), st)| < pr)
  }

  /** Without a precision the row has no leading zeros. */
  lemma EnoughCanonical(n: nat, radix: nat, st: Style, pr: int, k: nat)
    requires Enough(n, radix, st, pr, k) && pr <= 1
    ensures Low(n, radix, k) == Digits(n, radix)
  {
    if k > 1 { SpelledNonEmpty(Low(n, radix, k - 1), st); }
    CanonicalDigits(n, radix, k);
  }

  /** The lowest digit and the rest. */
  method Divide(n: nat, radix: nat) returns (q: nat, r: nat)
    requires IsRadix(radix)
    ensures q == Quotient(n, radix) && r == Remainder(n, radix)
  {
    DivisionIs(n, radix);
    q, r := n / radix, n % radix;
  }

  /** The loop goes on after `k` digits. */
  ghost predicate Going(s: seq<byte>, l: nat, n: nat, radix: nat, st: Style, pr: int, k: nat, n64: nat) {
    exists x: nat :: x == k && Ready(s, l, n, radix, st, x) && n64 == Shift(n, radix, x)
      && (x > 0 ==> n64 != 0 || |Spelled(Low(n, radix, x), st)| < pr)
  }

  /** The loop has ended after `k` digits. */
  ghost predicate Ended(s: seq<byte>, n: nat, radix: nat, st: Style, pr: int, k: nat) {
    exists x: nat :: x == k && Enough(n, radix, st, pr, x) && s == Spelled(Low(n, radix, x), st)
  }

  lemma {:induction false} SpelledLength(d: seq<nat>, st: Style)
    requires Proper(st) && Small(d)
    ensures |Spelled(d, st)| >= |d|
  {
    if d != [] { SpelledLength(d[1..], st); }
  }

  /** One turn of the radix loop. */
  method RadixTurn(s0: seq<byte>, l0: nat, n0: nat, ghost n: nat, radix: nat, st: Style, pr: int, ghost k: nat)
    returns (s: seq<byte>, l: nat, n64: nat, done: bool)
    requires Going(s0, l0, n, radix, st, pr, k, n0) && IsRadix(radix) && Proper(st)
    ensures if done then Ended(s, n, radix, st, pr, k + 1) else Going(s, l, n, radix, st, pr, k + 1, n64)
    ensures n64 <= n0 && (n0 > 0 ==> n64 < n0) && (!done && n64 == 0 ==> k + 1 < pr)
  {
    RadixStep(s0, l0, n, radix, st, k);
    SpelledLength(Low(n, radix, k + 1), st);
    var x;
    n64, x := Divide(n0, radix);
    s, l := [st.table[x]] + s0, l0;
    done := !(n64 != 0 || |s| < pr);
    if done {
      assert Enough(n, radix, st, pr, k + 1);
    } else {
      if st.group > 0 {
        l := l + 1;
        if l == st.group {
          l := 0;
          s := [COMMA] + s;
        }
      }
      assert Ready(s, l, n, radix, st, k + 1);
    }
  }

  /** Conversion to a radix that is a power of two, with at least `pr` characters. */
  method RadixNumber(n: nat, radix: nat, st: Style, pr: int) returns (s: seq<byte>, ghost k: nat)
    requires IsRadix(radix) && Proper(st)
    ensures Ended(s, n, radix, st, pr, k)
    ensures pr <= 1 ==> s == Spelled(Digits(n, radix), st)
  {
    s, k := [], 0;
    var n64, l, done := n, 0, false;
    assert Ready([], 0, n, radix, st, 0);
    while !done
      invariant if done then Ended(s, n, radix, st, pr, k) else Going(s, l, n, radix, st, pr, k, n64)
      decreases if done then 0 else 1, n64, if pr > k then pr - k else 0
    {
      s, l, n64, done := RadixTurn(s, l, n64, n, radix, st, pr, k);
      k := k + 1;
    }
    if pr <= 1 { EnoughCanonical(n, radix, st, pr, k); }
  }
}
