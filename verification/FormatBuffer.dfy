/** The buffer of the radix conversion: 512 bytes, filled from its end. */
module FormatBuffer {
  import opened WordScan
  import opened FormatNumber
  import opened FormatConvert
  import opened FormatField
  import opened FormatDirective
  import opened NumberParsers

  const BUFFER := 512

  lemma QuotientHalf(n: nat, radix: nat)
    requires IsRadix(radix)
    ensures 2 * Quotient(n, radix) <= n
  {
    DivisionIs(n, radix);
  }

  /** Every digit taken off halves the number at least. */
  lemma {:induction false} ShiftBelow(n: nat, radix: nat, j: nat, e: nat)
    requires IsRadix(radix) && n < Power(2, e) && j <= e
    ensures Shift(n, radix, j) < Power(2, e - j)
  {
    if j > 0 {
      ShiftBelow(n, radix, j - 1, e);
      QuotientHalf(Shift(n, radix, j - 1), radix);
    }
  }

  lemma WordBits(e: nat)
    requires e == 64
    ensures Power(2, e) == WORD
  {
    WordIsPower(16);
    PowerSixteen(16);
  }

  /** A 64-bit number has no more than 64 digits. */
  lemma DigitsLeft(n: nat, radix: nat, j: nat, e: nat)
    requires IsRadix(radix) && n < WORD && e == 64 && Shift(n, radix, j) != 0
    ensures j < e
  {
    WordBits(e);
    ShiftBelow(n, radix, e, e);
    if j >= e { ShiftZero(n, radix, e, j); }
  }

  /** How long the row of the `k` lowest digits is, with its commas. */
  function RowLength(n: nat, radix: nat, st: Style, k: nat): nat
    requires IsRadix(radix) && Proper(st)
  {
    |Spelled(Low(n, radix, k), st)|
  }

  /** A digit more is one character more, or two if a comma is due. */
  lemma RowStep(n: nat, radix: nat, st: Style, k: nat)
    requires IsRadix(radix) && Proper(st)
    ensures RowLength(n, radix, st, k + 1) == RowLength(n, radix, st, k) + if CommaDue(st, k) then 2 else 1
  {
    SpelledMore(Remainder(Shift(n, radix, k), radix), Low(n, radix, k), st);
  }

  lemma {:induction false} RowAtMost(n: nat, radix: nat, st: Style, k: nat)
    requires IsRadix(radix) && Proper(st)
    ensures RowLength(n, radix, st, k) <= 2 * k
  {
    if k > 0 {
      RowAtMost(n, radix, st, k - 1);
      RowStep(n, radix, st, k - 1);
    }
  }

  /** The length of a row tells whether a comma is due in front of it. */
  lemma RowPhase(n: nat, radix: nat, st: Style, k: nat)
    requires IsRadix(radix) && Proper(st) && st.group > 0
    ensures RowLength(n, radix, st, k) % (st.group + 1) == Phase(k, st.group)
  {
    GroupedLength(Low(n, radix, k), st);
  }

  /** No row ends in front of the digit that its comma waits for, so some lengths are passed over. */
  lemma LastStep(n: nat, radix: nat, st: Style, k: nat)
    requires IsRadix(radix) && Proper(st) && k >= 1 && RowLength(n, radix, st, k - 1) == BUFFER - 1 && st.group != 3
    ensures RowLength(n, radix, st, k) == BUFFER
  {
    RowStep(n, radix, st, k - 1);
    if st.group > 0 { RowPhase(n, radix, st, k - 1); }
  }

  /** The digits that the radix loop writes stay inside the buffer exactly under this condition. */
  predicate Fits(st: Style, pr: int) {
    pr < BUFFER || (pr == BUFFER && st.group != 3)
  }

  lemma FitsInside(n: nat, radix: nat, st: Style, pr: int, k: nat)
    requires n < WORD && Enough(n, radix, st, pr, k) && Fits(st, pr)
    ensures RowLength(n, radix, st, k) <= BUFFER
  {
    RowStep(n, radix, st, k - 1);
    if k == 1 {
      RowAtMost(n, radix, st, 1);
    } else if Shift(n, radix, k - 1) != 0 {
      DigitsLeft(n, radix, k - 1, 64);
      RowAtMost(n, radix, st, k);
    } else if RowLength(n, radix, st, k - 1) == BUFFER - 1 && st.group != 3 {
      LastStep(n, radix, st, k);
    }
  }

  lemma LeavesBuffer(n: nat, radix: nat, st: Style, pr: int, k: nat)
    requires Enough(n, radix, st, pr, k) && !Fits(st, pr)
    ensures RowLength(n, radix, st, k) > BUFFER
  {
    if pr == BUFFER { RowPhase(n, radix, st, k); }
  }

  /**
   For every 64-bit number, radix, grouping and precision: the radix loop stays inside its buffer if
   and only if the precision is less than 512, or is 512 and the digits are not grouped in threes.
   */
  lemma BufferIff(s: seq<byte>, n: nat, radix: nat, st: Style, pr: int, k: nat)
    requires n < WORD && Ended(s, n, radix, st, pr, k)
    ensures |s| <= BUFFER <==> Fits(st, pr)
  {
    if Fits(st, pr) { FitsInside(n, radix, st, pr, k); } else { LeavesBuffer(n, radix, st, pr, k); }
  }

  lemma NeededFits(v: nat, radix: nat, st: Style, pr: int)
    requires v < WORD && IsRadix(radix) && Proper(st)
    ensures |Spelled(Low(v, radix, DigitsNeeded(v, radix, st, pr, 1)), st)| <= BUFFER <==> Fits(st, pr)
  {
    var k := DigitsNeeded(v, radix, st, pr, 1);
    NeededEnough(v, radix, st, pr, 1);
    if Fits(st, pr) { FitsInside(v, radix, st, pr, k); } else { LeavesBuffer(v, radix, st, pr, k); }
  }

  /** The same for the text of a field. */
  lemma FieldFits(radix: nat, table: seq<byte>, group: nat, prefix: seq<byte>, fl: Flags, fw: int, pr: int,
                  wide: bool, n: nat)
    requires IsRadix(radix) && (table == LOWER || table == UPPER) && (group == 3 || group == 4 || group == 8)
    ensures |RadixField(radix, table, group, prefix, fl, fw, pr, wide, n).body| <= BUFFER
        <==> pr < BUFFER || (pr == BUFFER && !(fl.comma && group == 3))
  {
    Tables();
    var v := if wide then n % WORD else n % HALF;
    NeededFits(v, radix, Style(table, if fl.comma then group else 0), pr);
  }

  /** A row that reaches a precision of 512 in groups of three has 513 characters. */
  lemma OneTooMany(n: nat, radix: nat, st: Style, k: nat)
    requires n < WORD && Enough(n, radix, st, BUFFER, k) && st.group == 3
    ensures RowLength(n, radix, st, k) == BUFFER + 1
  {
    LeavesBuffer(n, radix, st, BUFFER, k);
    RowStep(n, radix, st, k - 1);
    RowAtMost(n, radix, st, k);
    if k > 1 && Shift(n, radix, k - 1) != 0 { DigitsLeft(n, radix, k - 1, 64); }
  }
}
