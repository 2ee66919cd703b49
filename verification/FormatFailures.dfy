/** Formats that do not print what they ask for. */
module FormatFailures {
  import opened WordScan
  import opened FormatNumber
  import opened FormatConvert
  import opened FormatField
  import opened FormatDirective
  import opened FormatOutput
  import opened FormatBuffer
  import opened DirectiveText

  const COMMA_6U: seq<byte> := [0x25, 0x27, 0x2e, 0x36, 0x75] // "%'.6u"
  const ZERO_6_3D: seq<byte> := [0x25, 0x30, 0x36, 0x2e, 0x33, 0x64] // "%06.3d"
  const COMMA_512O: seq<byte> := [0x25, 0x27, 0x2e, 0x35, 0x31, 0x32, 0x6f] // "%'.512o"

  const COMMA_FLAG := NO_FLAGS.(comma := true)
  const ZERO_FLAG := NO_FLAGS.(zero := true)

  lemma OneDigit(n: nat)
    requires n < 10
    ensures Decimal(n) == [Figure(n)]
  {
  }

  /** A directive with a comma flag and a precision, without a width. */
  lemma ReadPrecise(fmt: seq<byte>, f: nat, a: Arguments, pr: nat, digits: seq<byte>, c: byte)
    requires Converts(c) && Decimal(pr) == digits
    requires Has(fmt, f, [PERCENT] + ([0x27] + ([0x2e] + digits + [c])))
    ensures ParseSpec(fmt, f, a) == Spec(COMMA_FLAG, 0, pr, false, c, f + |digits| + 4)
  {
    var d, w := Spec(COMMA_FLAG, 0, pr, false, c, 0), Spelling([0x27], [], false, false);
    assert SizeOn(d, w) == [c];
    assert PrecisionOn(d, w) == [0x2e] + digits + [c];
    assert WidthOn(d, w) == [0x2e] + digits + [c];
    assert FlagText([0x27], false) == [0x27];
    SpecRead(fmt, f, a, d, w);
  }

  // ----- "%'.6u"

  lemma ReadComma6(fmt: seq<byte>, f: nat, a: Arguments)
    requires Has(fmt, f, COMMA_6U)
    ensures ParseSpec(fmt, f, a) == Spec(COMMA_FLAG, 0, 6, false, 0x75, f + 5)
  {
    OneDigit(6);
    assert COMMA_6U == [PERCENT] + ([0x27] + ([0x2e] + [Figure(6)] + [0x75]));
    ReadPrecise(fmt, f, a, 6, [Figure(6)], 0x75);
  }

  /** "%'.6u" of 7 prints "000007", with a zero where a comma is due. */
  lemma PaddedCommasWitness(fmt: seq<byte>, f: nat, a: Arguments)
    requires Has(fmt, f, COMMA_6U) && a.number == 7
    ensures var field := Converted(ParseSpec(fmt, f, a), a);
      FieldText(field) == [48, 48, 48, 48, 48, 55] && |Padded(field)| == 6 && !CommaAt(Padded(field), 3, 2)
  {
    ReadComma6(fmt, f, a);
    SevenGrouped(ParseSpec(fmt, f, a), a);
    SevenPadded();
  }

  lemma Seven()
    ensures Proper(GROUPED) && Proper(PLAIN) && Spelled(Digits(7, 10), GROUPED) == [55]
    ensures Spelled(Digits(7, 10), PLAIN) == [55]
  {
    Tables();
    assert Digits(7, 10) == [7] && [7][1..] == [];
    assert Spelled([], GROUPED) == [] && Spelled([], PLAIN) == [];
  }

  lemma SevenGrouped(d: Spec, a: Arguments)
    requires a.number == 7 && d == Spec(COMMA_FLAG, 0, 6, false, 0x75, d.next)
    ensures Converted(d, a) == Field([55], [], 3, true, false, false, 0, 6)
  {
    Seven();
    assert Magnitude(7, false, false) == (7, false);
    assert Converted(d, a) == IntegerField(false, COMMA_FLAG, 0, 6, false, 7);
  }

  // ----- "%06.3d"

  lemma ReadZero63(fmt: seq<byte>, f: nat, a: Arguments)
    requires Has(fmt, f, ZERO_6_3D)
    ensures ParseSpec(fmt, f, a) == Spec(ZERO_FLAG, 6, 3, false, 0x64, f + 6)
  {
    var d, w := Spec(ZERO_FLAG, 6, 3, false, 0x64, 0), Spelling([], [], false, false);
    OneDigit(6);
    OneDigit(3);
    assert SizeOn(d, w) == [0x64];
    assert PrecisionOn(d, w) == [0x2e, 0x33, 0x64];
    assert WidthOn(d, w) == [0x36, 0x2e, 0x33, 0x64];
    assert SpecText(d, w) == ZERO_6_3D;
    SpecRead(fmt, f, a, d, w);
  }

  lemma SevenSigned(d: Spec, a: Arguments)
    requires a.number == 7 && d == Spec(ZERO_FLAG, 6, 3, false, 0x64, d.next)
    ensures Converted(d, a) == Field([55], [], 3, false, false, true, 6, 3)
  {
    Seven();
    assert Magnitude(7, true, false) == (7, false);
    assert Converted(d, a) == IntegerField(true, ZERO_FLAG, 6, 3, false, 7);
  }

  /** "%06.3d" of 7 prints the four characters "0007". */
  lemma FieldLengthWitness(fmt: seq<byte>, f: nat, a: Arguments)
    requires Has(fmt, f, ZERO_6_3D) && a.number == 7
    ensures FieldText(Converted(ParseSpec(fmt, f, a), a)) == [48, 48, 48, 55]
  {
    ReadZero63(fmt, f, a);
    SevenSigned(ParseSpec(fmt, f, a), a);
    SevenShort();
  }

  // ----- "%'.512o"

  lemma ReadComma512(fmt: seq<byte>, f: nat, a: Arguments)
    requires Has(fmt, f, COMMA_512O)
    ensures ParseSpec(fmt, f, a) == Spec(COMMA_FLAG, 0, 512, false, 0x6f, f + 7)
  {
    FiveTwelve();
    assert COMMA_512O == [PERCENT] + ([0x27] + ([0x2e] + [0x35, 0x31, 0x32] + [0x6f]));
    ReadPrecise(fmt, f, a, 512, [0x35, 0x31, 0x32], 0x6f);
  }

  lemma FiveTwelve()
    ensures Decimal(512) == [0x35, 0x31, 0x32]
  {
    OneDigit(5);
    assert Decimal(51) == Decimal(5) + [Figure(1)];
    assert Decimal(512) == Decimal(51) + [Figure(2)];
  }

  lemma OctalBody(d: Spec, a: Arguments)
    requires d == Spec(COMMA_FLAG, 0, 512, false, 0x6f, d.next)
    ensures |Converted(d, a).body| == BUFFER + 1
  {
    Tables();
    var v, st := a.number % HALF, Style(UPPER, 3);
    NeededEnough(v, 8, st, 512, 1);
    OneTooMany(v, 8, st, DigitsNeeded(v, 8, st, 512, 1));
    assert Converted(d, a) == RadixField(8, UPPER, 3, [0x30], COMMA_FLAG, 0, 512, false, a.number);
  }

  /** "%'.512o" of any number writes 513 characters. */
  lemma BufferWitness(fmt: seq<byte>, f: nat, a: Arguments)
    requires Has(fmt, f, COMMA_512O)
    ensures |Converted(ParseSpec(fmt, f, a), a).body| == BUFFER + 1
  {
    ReadComma512(fmt, f, a);
    OctalBody(ParseSpec(fmt, f, a), a);
  }

  // ----- "%"

  lemma OnlyPercent(fmt: seq<byte>)
    requires |fmt| >= 2 && fmt[0] == PERCENT && fmt[1] == 0
    ensures Length(fmt) == 1 && Stop(fmt, 0) == 0
  {
    assert fmt[Length(fmt)] == 0;
  }

  lemma NextOutside(fmt: seq<byte>, directive: nat -> Directive, n: nat)
    requires 0 < Length(fmt) == n < |fmt| && Stop(fmt, 0) == 0 && directive(0).next > n
    ensures !Inside(fmt, 0, directive)
  {
  }

  /** A percent sign at the end of the format makes the formatter leave it. */
  lemma LeavesFormatWitness(fmt: seq<byte>, directive: nat -> Directive, a: Arguments)
    requires |fmt| >= 2 && fmt[..2] == [PERCENT, 0] && directive(0).next == ParseSpec(fmt, 0, a).next
    ensures Length(fmt) == 1 && directive(0).next == 2 && !Inside(fmt, 0, directive)
  {
    assert fmt[0] == PERCENT && fmt[1] == 0;
    OnlyPercent(fmt);
    NothingParsed(fmt, a);
    NextOutside(fmt, directive, 1);
  }

  lemma NothingParsed(fmt: seq<byte>, a: Arguments)
    requires |fmt| >= 2 && fmt[0] == PERCENT && fmt[1] == 0
    ensures ParseSpec(fmt, 0, a).next == 2 && ParseSpec(fmt, 0, a).conversion == 0
  {
    assert ParseFlags(fmt, 1, NO_FLAGS) == (NO_FLAGS, 1);
    assert ParseDigits(fmt, 1, 0) == (0, 1);
  }
}
