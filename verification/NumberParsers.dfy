/** The logger's number parsers, and how they invert the formatter's conversions. */
module NumberParsers {
  import opened WordScan
  import opened FormatNumber
  import opened FormatConvert

  const NEWLINE: byte := 10

  /** The first place of a character in a table, from `i` on. */
  function IndexOf(table: seq<byte>, c: byte, i: nat): (v: nat)
    requires i <= |table|
    ensures i <= v <= |table|
    decreases |table| - i
  {
    if i == |table| || table[i] == c then i else IndexOf(table, c, i + 1)
  }

  /** The value of a digit character of either case, 16 for any other character. */
  function DigitValue(c: byte): (v: nat)
    ensures v <= 16
  {
    var v := IndexOf(LOWER, c, 0);
    if v < 16 then v else IndexOf(UPPER, c, 0)
  }

  lemma {:induction false} IndexOfOwn(table: seq<byte>, x: nat, i: nat)
    requires i <= x < |table| && forall j :: i <= j < x ==> table[j] != table[x]
    ensures IndexOf(table, table[x], i) == x
    decreases x - i
  {
    if i < x { IndexOfOwn(table, x, i + 1); }
  }

  lemma {:induction false} IndexOfNone(table: seq<byte>, c: byte, i: nat)
    requires i <= |table| && c !in table
    ensures IndexOf(table, c, i) == |table|
    decreases |table| - i
  {
    if i < |table| { IndexOfNone(table, c, i + 1); }
  }

  predicate NewAt(table: seq<byte>, x: nat)
    requires x < |table|
  {
    forall j :: 0 <= j < x ==> table[j] != table[x]
  }

  lemma TablesDistinct(x: nat)
    requires x < 16
    ensures NewAt(LOWER, x) && NewAt(UPPER, x) && (if x < 10 then UPPER[x] == LOWER[x] else UPPER[x] !in LOWER)
  {
  }

  lemma TableValue(table: seq<byte>, x: nat)
    requires (table == LOWER || table == UPPER) && x < 16
    ensures DigitValue(table[x]) == x
  {
    TablesDistinct(x);
    IndexOfOwn(LOWER, x, 0);
    IndexOfOwn(UPPER, x, 0);
    if x >= 10 { IndexOfNone(LOWER, UPPER[x], 0); }
  }

  lemma CommaValue()
    ensures DigitValue(COMMA) == 16
  {
    Tables();
    IndexOfNone(LOWER, COMMA, 0);
    IndexOfNone(UPPER, COMMA, 0);
  }

  /** The number that a row of digits stands for. */
  function Value(d: seq<nat>, radix: nat): nat {
    if d == [] then 0 else Value(d[..|d| - 1], radix) * radix + d[|d| - 1]
  }

  lemma DivisionBack(n: nat, radix: nat)
    requires IsRadix(radix)
    ensures Quotient(n, radix) * radix + Remainder(n, radix) == n
  {
    DivisionIs(n, radix);
  }

  /** The digits of a number stand for it. */
  lemma {:induction false} ValueOfDigits(n: nat, radix: nat)
    requires IsRadix(radix)
    ensures Value(Digits(n, radix), radix) == n
  {
    var d := Digits(n, radix);
    if n < radix {
      assert d[..0] == [];
    } else {
      ValueOfDigits(Quotient(n, radix), radix);
      DivisionBack(n, radix);
      assert d[..|d| - 1] == Digits(Quotient(n, radix), radix);
    }
  }

  /** The decimal digits among the values of the characters of `s`. */
  function DecimalDigits(s: seq<byte>, value: byte -> nat): seq<nat> {
    if s == [] then []
    else
      var v := value(s[|s| - 1]);
      if v > 9 then DecimalDigits(s[..|s| - 1], value) else DecimalDigits(s[..|s| - 1], value) + [v]
  }

  /** The values of the characters of a digit table are their places. */
  ghost predicate Reads(value: byte -> nat, table: seq<byte>) {
    |table| == 16 && value(COMMA) > 9 && forall x :: 0 <= x < 16 ==> value(table[x]) == x
  }

  lemma ReadsTables()
    ensures Reads(DigitValue, LOWER) && Reads(DigitValue, UPPER)
  {
    forall x | 0 <= x < 16 ensures DigitValue(LOWER[x]) == x && DigitValue(UPPER[x]) == x {
      TableValue(LOWER, x);
      TableValue(UPPER, x);
    }
    CommaValue();
  }

  /** The number modulo 2^64. */
  function Wrapped(n: nat): (w: nat)
    ensures n < WORD ==> w == n
  {
    n % WORD
  }

  lemma WrapStep(a: nat, v: nat)
    ensures (Wrapped(a) * 10 % WORD + v) % WORD == Wrapped(a * 10 + v)
  {
    var q, r := a / WORD, a % WORD;
    assert a * 10 + v == WORD * (10 * q) + (r * 10 + v);
    assert (r * 10 + v) % WORD == (a * 10 + v) % WORD;
  }

  /** Reads decimal digits, skipping every other character, modulo 2^64. */
  method Dec2Bin(str: seq<byte>, value: byte -> nat) returns (ret: nat)
    ensures ret == Wrapped(Value(DecimalDigits(str, value), 10))
  {
    ret := 0;
    for i := 0 to |str|
      invariant ret == Wrapped(Value(DecimalDigits(str[..i], value), 10))
    {
      var v := value(str[i]);
      DecimalStep(str, value, i);
      if v <= 9 {
        ret := PushDecimal(ret, v, Value(DecimalDigits(str[..i], value), 10));
      }
    }
    assert str[..|str|] == str;
  }

  method PushDecimal(ret0: nat, v: nat, ghost a: nat) returns (ret: nat)
    requires ret0 == Wrapped(a)
    ensures ret == Wrapped(a * 10 + v)
  {
    WrapStep(a, v);
    ret := ret0 * 10 % WORD;
    ret := (ret + v) % WORD;
  }

  lemma DecimalStep(s: seq<byte>, value: byte -> nat, i: nat)
    requires i < |s|
    ensures var d, v := DecimalDigits(s[..i], value), value(s[i]);
      Value(DecimalDigits(s[..i + 1], value), 10) == if v > 9 then Value(d, 10) else Value(d, 10) * 10 + v
  {
    assert s[..i + 1][..i] == s[..i];
    var d, v := DecimalDigits(s[..i], value), value(s[i]);
    assert (d + [v])[..|d|] == d;
  }

  function DigitSeq(v: nat): seq<nat> {
    if v > 9 then [] else [v]
  }

  lemma {:induction false} DecimalFront(c: byte, s: seq<byte>, value: byte -> nat)
    ensures DecimalDigits([c] + s, value) == DigitSeq(value(c)) + DecimalDigits(s, value)
  {
    var all := [c] + s;
    if s == [] {
      assert all[..0] == [] && all[0] == c;
      assert DecimalDigits([], value) == [];
    } else {
      var n := |s| - 1;
      DecimalFront(c, s[..n], value);
      assert all[..n + 1] == [c] + s[..n] && all[n + 1] == s[n];
    }
  }

  /** Commas and all, the digits read are the digits written. */
  lemma {:induction false} DigitsReadBack(d: seq<nat>, st: Style, value: byte -> nat)
    requires Proper(st) && Reads(value, st.table) && forall i :: 0 <= i < |d| ==> d[i] < 10
    ensures DecimalDigits(Spelled(d, st), value) == d
  {
    if d != [] {
      DigitsReadBack(d[1..], st, value);
      var rest, c := Spelled(d[1..], st), st.table[d[0]];
      if CommaDue(st, |d| - 1) {
        DecimalFront(COMMA, rest, value);
        assert Spelled(d, st) == [c] + ([COMMA] + rest);
        DecimalFront(c, [COMMA] + rest, value);
      } else {
        DecimalFront(c, rest, value);
      }
    }
  }

  lemma DecimalInverse(n: nat, st: Style, value: byte -> nat)
    requires Proper(st) && Reads(value, st.table)
    ensures Value(DecimalDigits(Spelled(Digits(n, 10), st), value), 10) == n
  {
    DigitsReadBack(Digits(n, 10), st, value);
    ValueOfDigits(n, 10);
  }

  lemma DecimalsInverse(n: nat)
    ensures Proper(GROUPED) && Proper(PLAIN)
    ensures Value(DecimalDigits(Spelled(Digits(n, 10), GROUPED), DigitValue), 10) == n
    ensures Value(DecimalDigits(Spelled(Digits(n, 10), PLAIN), DigitValue), 10) == n
  {
    Tables();
    ReadsTables();
    DecimalInverse(n, GROUPED, DigitValue);
    DecimalInverse(n, PLAIN, DigitValue);
  }

  /** dec2bin inverts the unsigned decimal conversion with commas. */
  method GroupedRoundTrip(n: nat) returns (text: seq<byte>, back: nat)
    requires n < WORD
    ensures Proper(GROUPED) && text == Spelled(Digits(n, 10), GROUPED) && back == n
  {
    text := DecimalGrouped(n);
    back := Dec2Bin(text, DigitValue);
    DecimalsInverse(n);
  }

  /** dec2bin inverts the unsigned decimal conversion without commas. */
  method PlainRoundTrip(n: nat) returns (text: seq<byte>, back: nat)
    requires n < WORD
    ensures Proper(PLAIN) && text == Spelled(Digits(n, 10), PLAIN) && back == n
  {
    text := DecimalPlain(n);
    back := Dec2Bin(text, DigitValue);
    DecimalsInverse(n);
  }

  /** The values of the characters of `s`. */
  function Values(s: seq<byte>, value: byte -> nat): (d: seq<nat>)
    ensures |d| == |s| && forall i :: 0 <= i < |s| ==> d[i] == value(s[i])
  {
    if s == [] then [] else Values(s[..|s| - 1], value) + [value(s[|s| - 1])]
  }

  lemma ValuesReadBack(d: seq<nat>, st: Style, value: byte -> nat)
    requires Proper(st) && Reads(value, st.table) && st.group == 0 && forall i :: 0 <= i < |d| ==> d[i] < 16
    ensures Values(Spelled(d, st), value) == d
  {
    PlainSpelled(d, st);
  }

  lemma RadixInverse(n: nat, radix: nat, st: Style, value: byte -> nat)
    requires IsRadix(radix) && Proper(st) && Reads(value, st.table) && st.group == 0
    ensures Values(Spelled(Digits(n, radix), st), value) == Digits(n, radix)
    ensures Value(Values(Spelled(Digits(n, radix), st), value), radix) == n
  {
    ValuesReadBack(Digits(n, radix), st, value);
    ValueOfDigits(n, radix);
  }

  lemma WrapOctal(a: nat, v: nat)
    ensures (Wrapped(a) * 8 + v) % WORD == Wrapped(a * 8 + v)
  {
    var q, r := a / WORD, a % WORD;
    assert a * 8 + v == WORD * (8 * q) + (r * 8 + v);
  }

  /** The difference of a signed character and '0', as an unsigned 64-bit number. */
  function FromZero(c: byte): (v: nat)
    ensures v < WORD
  {
    var x := c as int;
    if x >= 128 then WORD + x - 256 - 48 else if x >= 48 then x - 48 else WORD + x - 48
  }

  /** Reads any characters as if they were octal digits, modulo 2^64. */
  method Oct2Bin(str: seq<byte>, value: byte -> nat) returns (n: nat)
    ensures n == Wrapped(Value(Values(str, value), 8))
  {
    n := 0;
    ghost var d := Values(str, value);
    for i := 0 to |str|
      invariant n == Wrapped(Value(d[..i], 8))
    {
      assert d[..i + 1][..i] == d[..i] && d[..i + 1][i] == value(str[i]);
      WrapOctal(Value(d[..i], 8), value(str[i]));
      n := (n * 8 + value(str[i])) % WORD;
    }
    assert d[..|str|] == d;
  }

  const OCTAL := Style(UPPER, 0)

  lemma FromZeroOctal(x: nat)
    requires x < 8
    ensures FromZero(UPPER[x]) == x
  {
    var c := UPPER[x];
    assert c as int == 48 + x;
  }

  lemma OctalInverse(n: nat)
    ensures Proper(OCTAL) && Value(Values(Spelled(Digits(n, 8), OCTAL), FromZero), 8) == n
  {
    Tables();
    var d := Digits(n, 8);
    PlainSpelled(d, OCTAL);
    forall i | 0 <= i < |d| ensures FromZero(Spelled(d, OCTAL)[i]) == d[i] {
      FromZeroOctal(d[i]);
    }
    assert Values(Spelled(d, OCTAL), FromZero) == d;
    ValueOfDigits(n, 8);
  }

  /** oct2bin inverts the octal conversion. */
  method OctalRoundTrip(n: nat) returns (text: seq<byte>, back: nat)
    requires n < WORD
    ensures Proper(OCTAL) && text == Spelled(Digits(n, 8), OCTAL) && back == n
  {
    ghost var k;
    OctalInverse(n);
    text, k := RadixNumber(n, 8, OCTAL, -1);
    back := Oct2Bin(text, FromZero);
  }

  function Power(b: nat, e: nat): (p: nat)
    ensures b > 0 ==> p > 0
  {
    if e == 0 then 1 else b * Power(b, e - 1)
  }

  /** Bitwise or, bit by bit. */
  function BitOr(a: nat, b: nat): nat {
    if a == 0 && b == 0 then 0 else 2 * BitOr(a / 2, b / 2) + (if a % 2 == 1 || b % 2 == 1 then 1 else 0)
  }

  lemma {:induction false} BitOrZero(b: nat)
    ensures BitOr(0, b) == b
  {
    if b > 0 { BitOrZero(b / 2); }
  }

  /** Adding bits above all bits of `a` is the bitwise or. */
  lemma {:induction false} BitOrAbove(a: nat, x: nat, e: nat)
    requires a < Power(2, e)
    ensures BitOr(a, x * Power(2, e)) == a + x * Power(2, e)
  {
    if e == 0 {
      assert x * Power(2, 0) == x;
      BitOrZero(x);
    } else {
      var p := Power(2, e - 1);
      BitOrAbove(a / 2, x, e - 1);
      Doubled(x, p);
      BitOrHalves(a, x * p);
    }
  }

  lemma Doubled(x: nat, p: nat)
    ensures x * (2 * p) == 2 * (x * p)
  {
  }

  lemma BitOrHalves(a: nat, y: nat)
    requires BitOr(a / 2, y) == a / 2 + y
    ensures BitOr(a, 2 * y) == a + 2 * y
  {
  }

  lemma {:induction false} PowerSixteen(j: nat)
    ensures Power(16, j) == Power(2, 4 * j)
  {
    if j > 0 {
      PowerSixteen(j - 1);
      assert Power(2, 4 * j) == 2 * Power(2, 4 * j - 1);
      assert Power(2, 4 * j - 1) == 2 * Power(2, 4 * j - 2);
      assert Power(2, 4 * j - 2) == 2 * Power(2, 4 * j - 3);
      assert Power(2, 4 * j - 3) == 2 * Power(2, 4 * j - 4);
    }
  }

  lemma {:induction false} ValueBound(d: seq<nat>, j: nat)
    requires |d| == j && forall i :: 0 <= i < j ==> d[i] < 16
    ensures Value(d, 16) < Power(16, j)
  {
    if j > 0 { ValueBound(d[..j - 1], j - 1); }
  }

  /** A digit in front counts for its place. */
  lemma {:induction false} ValueFront(x: nat, d: seq<nat>)
    ensures Value([x] + d, 16) == x * Power(16, |d|) + Value(d, 16)
  {
    var all := [x] + d;
    if d == [] {
      assert all[..0] == [];
    } else {
      var n := |d| - 1;
      ValueFront(x, d[..n]);
      assert all[..n + 1] == [x] + d[..n] && all[n + 1] == d[n];
      assert x * Power(16, n + 1) == x * Power(16, n) * 16;
    }
  }

  /** The value of a character as a hexadecimal digit; other characters count as 0. */
  function HexValue(v: nat): nat {
    if v < 16 then v else 0
  }

  function HexDigits(s: seq<byte>, value: byte -> nat): (d: seq<nat>)
    ensures |d| == |s| && forall i :: 0 <= i < |d| ==> d[i] < 16 && d[i] == HexValue(value(s[i]))
  {
    if s == [] then [] else HexDigits(s[..|s| - 1], value) + [HexValue(value(s[|s| - 1]))]
  }

  lemma HexStep(d: seq<nat>, i: nat, ret: nat)
    requires i < |d| && (forall j :: 0 <= j < |d| ==> d[j] < 16) && ret == Value(d[i + 1..], 16)
    ensures BitOr(ret, d[i] * Power(16, |d| - 1 - i)) == Value(d[i..], 16)
  {
    var rest := d[i + 1..];
    ValueBound(rest, |rest|);
    PowerSixteen(|rest|);
    BitOrAbove(ret, d[i], 4 * |rest|);
    ValueFront(d[i], rest);
    assert d[i..] == [d[i]] + rest;
  }

  /** Puts a digit `j` places further left. */
  method OrShifted(ret0: nat, digit: nat, j: nat, ghost d: seq<nat>, ghost i: nat) returns (ret: nat)
    requires i < |d| && (forall k :: 0 <= k < |d| ==> d[k] < 16) && ret0 == Value(d[i + 1..], 16)
    requires digit == d[i] && j == |d| - 1 - i
    ensures ret == Value(d[i..], 16)
  {
    HexStep(d, i, ret0);
    ret := BitOr(ret0, digit * Power(16, j));
  }

  /** Reads the hexadecimal digits of `s` from the right. */
  method HexFromRight(s: seq<byte>, value: byte -> nat, ghost d: seq<nat>) returns (ret: nat)
    requires |d| == |s| && forall i :: 0 <= i < |d| ==> d[i] < 16 && d[i] == HexValue(value(s[i]))
    ensures ret == Value(d, 16)
  {
    ret := 0;
    var i, j := |s| - 1, 0;
    while i > -1
      invariant -1 <= i < |s| && j == |s| - 1 - i && ret == Value(d[i + 1..], 16)
      decreases i
    {
      var digit := HexValue(value(s[i]));
      ret := OrShifted(ret, digit, j, d, i);
      i := i - 1;
      j := j + 1;
    }
    assert d[0..] == d;
  }

  /** Reads `size` hexadecimal digits, skipping a newline in front; at most 64 bits. */
  method Hex2Bin(str: seq<byte>, size: nat, value: byte -> nat) returns (ret: nat)
    requires size <= 16 && |str| >= 1 && size + (if str[0] == NEWLINE then 1 else 0) <= |str|
    ensures var from := if str[0] == NEWLINE then 1 else 0;
      ret == Value(HexDigits(str[from..from + size], value), 16)
  {
    var from := if str[0] == NEWLINE then 1 else 0;
    ret := HexFromRight(str[from..from + size], value, HexDigits(str[from..from + size], value));
  }

  const HEX := Style(LOWER, 0)

  lemma HexInverse(n: nat)
    ensures Proper(HEX) && Value(HexDigits(Spelled(Digits(n, 16), HEX), DigitValue), 16) == n
    ensures n < WORD ==> 1 <= |Spelled(Digits(n, 16), HEX)| <= 16
    ensures Spelled(Digits(n, 16), HEX) != [] && Spelled(Digits(n, 16), HEX)[0] != NEWLINE
  {
    Tables();
    ReadsTables();
    RadixInverse(n, 16, HEX, DigitValue);
    var s, d := Spelled(Digits(n, 16), HEX), Digits(n, 16);
    HexSame(s, DigitValue, d);
    PlainSpelled(d, HEX);
    NoNewline(d[0]);
    if n < WORD { DigitCount(n, 16); }
  }

  lemma NoNewline(x: nat)
    requires x < 16
    ensures LOWER[x] != NEWLINE
  {
  }

  lemma HexSame(s: seq<byte>, value: byte -> nat, d: seq<nat>)
    requires Values(s, value) == d && forall i :: 0 <= i < |d| ==> d[i] < 16
    ensures HexDigits(s, value) == d
  {
  }

  /** A number below 16 to the power of `k` has at most `k` digits. */
  lemma {:induction false} DigitCountBelow(n: nat, k: nat)
    requires k >= 1 && n < Power(16, k)
    ensures |Digits(n, 16)| <= k
  {
    if n >= 16 {
      DivisionIs(n, 16);
      assert Power(16, 1) == 16 * Power(16, 0) == 16;
      DigitCountBelow(n / 16, k - 1);
    }
  }

  lemma DigitCount(n: nat, k: nat)
    requires n < WORD && k == 16
    ensures |Digits(n, 16)| <= k
  {
    WordIsPower(k);
    DigitCountBelow(n, k);
  }

  lemma WordIsPower(k: nat)
    requires k == 16
    ensures Power(16, k) == WORD
  {
    assert Power(16, 4) == 0x1_0000;
    assert Power(16, 8) == 0x1_0000_0000;
    assert Power(16, 12) == 0x1_0000_0000_0000;
  }

  /** hex2bin inverts the hexadecimal conversion. */
  method HexRoundTrip(n: nat) returns (text: seq<byte>, back: nat)
    requires n < WORD
    ensures Proper(HEX) && text == Spelled(Digits(n, 16), HEX) && back == n
  {
    ghost var k;
    HexInverse(n);
    text, k := RadixNumber(n, 16, HEX, -1);
    back := Hex2Bin(text, |text|, DigitValue);
    assert text[0..|text|] == text;
  }
}
