/** Formatting a number through the whole formatter and parsing it back. */
module FormatRoundTrip {
  import opened WordScan
  import opened FormatNumber
  import opened FormatConvert
  import opened FormatField
  import opened FormatOutput
  import opened FormatDirective
  import opened NumberParsers
  import FormatMeaning

  const LLU: seq<byte> := [0x25, 0x6c, 0x6c, 0x75, 0] // "%llu"
  const COMMA_LLU: seq<byte> := [0x25, 0x27, 0x6c, 0x6c, 0x75, 0] // "%'llu"
  const LLX: seq<byte> := [0x25, 0x6c, 0x6c, 0x78, 0] // "%llx"
  const LLO: seq<byte> := [0x25, 0x6c, 0x6c, 0x6f, 0] // "%llo"

  /** The format is a single directive of `n` bytes. */
  predicate Single(fmt: seq<byte>, n: nat) {
    && n < |fmt| && n >= 1 && fmt[0] == PERCENT && fmt[n] == 0
    && forall i :: 0 < i < n ==> fmt[i] != 0
  }

  lemma SingleLength(fmt: seq<byte>, n: nat)
    requires Single(fmt, n)
    ensures Length(fmt) == n && Stop(fmt, 0) == 0
  {
    var l := Length(fmt);
    assert l <= n;
    assert fmt[l] == 0;
  }

  /** Its text is the text of its field. */
  lemma SingleText(fmt: seq<byte>, n: nat, directive: nat -> Directive)
    requires Single(fmt, n) && directive(0).next == n && ProperField(directive(0).field)
    ensures Length(fmt) == n && Inside(fmt, 0, directive)
    ensures FormatText(fmt, 0, directive) == FieldText(directive(0).field)
  {
    SingleLength(fmt, n);
    assert Stop(fmt, n) == n;
    assert fmt[0..0] == [] && fmt[n..n] == [];
    assert FormatText(fmt, n, directive) == [];
  }

  /** Runs the formatter with a callback on a format of one directive. */
  method FormatSingle(fmt: seq<byte>, fmtAddress: nat, n: nat, args: nat -> Arguments,
                      ghost directive: nat -> Directive, min: nat, address: nat -> nat) returns (text: seq<byte>)
    requires Single(fmt, n) && (fmtAddress + |fmt|) % 4 == 0 && min >= 1
    requires Agrees(directive, fmt, args) && directive(0).next == n && ProperField(directive(0).field)
    ensures text == FieldText(directive(0).field)
  {
    SingleText(fmt, n, directive);
    var out := new Output(min, true, address);
    var total := out.VSPrintfCb(fmt, fmtAddress, args, directive);
    text := Concat(out.chunks);
  }

  lemma ParseLong(fmt: seq<byte>, c: byte, a: Arguments)
    requires |fmt| >= 5 && fmt[..5] == [0x25, 0x6c, 0x6c, c, 0] && c != 0
    ensures ParseSpec(fmt, 0, a) == Spec(NO_FLAGS, 0, -1, true, c, 4)
  {
    assert fmt[0] == 0x25 && fmt[1] == 0x6c && fmt[2] == 0x6c && fmt[3] == c;
    assert ParseFlags(fmt, 1, NO_FLAGS) == (NO_FLAGS, 1);
    assert ParseDigits(fmt, 1, 0) == (0, 1);
  }

  lemma ParseCommaLong(fmt: seq<byte>, c: byte, a: Arguments)
    requires |fmt| >= 6 && fmt[..6] == [0x25, 0x27, 0x6c, 0x6c, c, 0] && c != 0
    ensures ParseSpec(fmt, 0, a) == Spec(NO_FLAGS.(comma := true), 0, -1, true, c, 5)
  {
    assert fmt[1] == 0x27 && fmt[2] == 0x6c && fmt[3] == 0x6c && fmt[4] == c;
    assert ParseFlags(fmt, 2, NO_FLAGS.(comma := true)) == (NO_FLAGS.(comma := true), 2);
    assert ParseDigits(fmt, 2, 0) == (0, 2);
  }

  lemma FirstAgrees(directive: nat -> Directive, fmt: seq<byte>, args: nat -> Arguments)
    requires Agrees(directive, fmt, args)
    ensures directive(0) == DirectiveAt(fmt, 0, args(0))
  {
  }

  lemma PlainField(body: seq<byte>, commas: bool, f: Field)
    requires f == Field(body, [], 3, commas, false, false, 0, 0)
    ensures FieldText(f) == body
  {
    DefaultField(f);
  }

  lemma UnsignedText(fl: Flags, n: nat)
    requires n < WORD && fl == NO_FLAGS.(comma := fl.comma)
    ensures Proper(GROUPED) && Proper(PLAIN)
    ensures FieldText(IntegerField(false, fl, 0, -1, true, n)) ==
      Spelled(Digits(n, 10), if fl.comma then GROUPED else PLAIN)
  {
    Tables();
    var body := Spelled(Digits(n, 10), if fl.comma then GROUPED else PLAIN);
    assert Magnitude(n, false, true) == (n, false);
    PlainField(body, fl.comma, IntegerField(false, fl, 0, -1, true, n));
  }

  lemma CanonicalBody(radix: nat, st: Style, n: nat)
    requires IsRadix(radix) && Proper(st)
    ensures Low(n, radix, DigitsNeeded(n, radix, st, -1, 1)) == Digits(n, radix)
  {
    NeededEnough(n, radix, st, -1, 1);
    EnoughCanonical(n, radix, st, -1, DigitsNeeded(n, radix, st, -1, 1));
  }

  lemma RadixFieldIs(radix: nat, table: seq<byte>, group: nat, prefix: seq<byte>, n: nat)
    requires n < WORD && IsRadix(radix) && (table == LOWER || table == UPPER)
    requires group == 3 || group == 4 || group == 8
    ensures Proper(Style(table, 0))
    ensures RadixField(radix, table, group, prefix, NO_FLAGS, 0, -1, true, n) ==
      Field(Spelled(Low(n, radix, DigitsNeeded(n, radix, Style(table, 0), -1, 1)), Style(table, 0)), [], group, false,
        false, false, 0, -1)
  {
    Tables();
    assert n % WORD == n;
  }

  lemma RadixText(radix: nat, table: seq<byte>, group: nat, prefix: seq<byte>, n: nat)
    requires n < WORD && IsRadix(radix) && (table == LOWER || table == UPPER)
    requires group == 3 || group == 4 || group == 8
    ensures Proper(Style(table, 0))
    ensures FieldText(RadixField(radix, table, group, prefix, NO_FLAGS, 0, -1, true, n)) ==
      Spelled(Digits(n, radix), Style(table, 0))
  {
    RadixFieldIs(radix, table, group, prefix, n);
    CanonicalBody(radix, Style(table, 0), n);
    BareField(Spelled(Digits(n, radix), Style(table, 0)), group);
  }

  lemma BareField(body: seq<byte>, group: nat)
    ensures FieldText(Field(body, [], group, false, false, false, 0, -1)) == body
  {
    DefaultField(Field(body, [], group, false, false, false, 0, -1));
  }

  lemma ParsePercent(fmt: seq<byte>, a: Arguments)
    requires |fmt| >= 3 && fmt[..3] == [PERCENT, PERCENT, 0]
    ensures ParseSpec(fmt, 0, a) == Spec(NO_FLAGS, 0, -1, false, PERCENT, 2)
  {
    assert fmt[0] == PERCENT && fmt[1] == PERCENT && fmt[2] == 0;
    assert ParseFlags(fmt, 1, NO_FLAGS) == (NO_FLAGS, 1);
    assert ParseDigits(fmt, 1, 0) == (0, 1);
  }

  lemma TextOfPercent(a: Arguments)
    ensures FieldText(Converted(Spec(NO_FLAGS, 0, -1, false, PERCENT, 2), a)) == [PERCENT]
  {
    assert Converted(Spec(NO_FLAGS, 0, -1, false, PERCENT, 2), a) == Field([PERCENT], [], 0, false, false, false, 0, 0);
    DefaultField(Field([PERCENT], [], 0, false, false, false, 0, 0));
  }

  lemma SinglePercent(fmt: seq<byte>)
    requires |fmt| >= 3 && fmt[..3] == [PERCENT, PERCENT, 0]
    ensures Single(fmt, 2)
  {
    assert fmt[0] == PERCENT && fmt[1] == PERCENT && fmt[2] == 0;
  }

  /** The first directive covers `n` bytes and prints `text`. */
  ghost predicate Prints(directive: nat -> Directive, n: nat, text: seq<byte>) {
    directive(0).next == n && ProperField(directive(0).field) && FieldText(directive(0).field) == text
  }

  lemma PrintsOf(directive: nat -> Directive, fmt: seq<byte>, a: Arguments, d: Spec, text: seq<byte>)
    requires directive(0) == DirectiveAt(fmt, 0, a) && ParseSpec(fmt, 0, a) == d && FieldText(Converted(d, a)) == text
    ensures Prints(directive, d.next, text)
  {
  }

  /** Two percent signs print one: the second does not begin a directive. */
  lemma PercentText(fmt: seq<byte>, directive: nat -> Directive, a: Arguments)
    requires |fmt| >= 3 && fmt[..3] == [PERCENT, PERCENT, 0] && directive(0) == DirectiveAt(fmt, 0, a)
    ensures Length(fmt) == 2 && Inside(fmt, 0, directive) && FormatText(fmt, 0, directive) == [PERCENT]
  {
    ParsePercent(fmt, a);
    TextOfPercent(a);
    SinglePercent(fmt);
    PrintsOf(directive, fmt, a, Spec(NO_FLAGS, 0, -1, false, PERCENT, 2), [PERCENT]);
    SingleText(fmt, 2, directive);
  }

  const LONG_U := Spec(NO_FLAGS, 0, -1, true, 0x75, 4)
  const COMMA_LONG_U := Spec(NO_FLAGS.(comma := true), 0, -1, true, 0x75, 5)
  const LONG_X := Spec(NO_FLAGS, 0, -1, true, 0x78, 4)
  const LONG_O := Spec(NO_FLAGS, 0, -1, true, 0x6f, 4)

  lemma TextOfU(a: Arguments)
    requires a.number < WORD
    ensures Proper(PLAIN) && FieldText(Converted(LONG_U, a)) == Spelled(Digits(a.number, 10), PLAIN)
  {
    UnsignedText(NO_FLAGS, a.number);
  }

  lemma TextOfCommaU(a: Arguments)
    requires a.number < WORD
    ensures Proper(GROUPED) && FieldText(Converted(COMMA_LONG_U, a)) == Spelled(Digits(a.number, 10), GROUPED)
  {
    UnsignedText(NO_FLAGS.(comma := true), a.number);
  }

  lemma TextOfX(a: Arguments)
    requires a.number < WORD
    ensures Proper(HEX) && FieldText(Converted(LONG_X, a)) == Spelled(Digits(a.number, 16), HEX)
  {
    assert Converted(LONG_X, a) == RadixField(16, LOWER, 4, [0x30, 0x78], NO_FLAGS, 0, -1, true, a.number);
    RadixText(16, LOWER, 4, [0x30, 0x78], a.number);
  }

  lemma TextOfO(a: Arguments)
    requires a.number < WORD
    ensures Proper(OCTAL) && FieldText(Converted(LONG_O, a)) == Spelled(Digits(a.number, 8), OCTAL)
  {
    assert Converted(LONG_O, a) == RadixField(8, UPPER, 3, [0x30], NO_FLAGS, 0, -1, true, a.number);
    RadixText(8, UPPER, 3, [0x30], a.number);
  }

  lemma SingleLong(fmt: seq<byte>, c: byte)
    requires |fmt| >= 5 && fmt[..5] == [0x25, 0x6c, 0x6c, c, 0] && c != 0
    ensures Single(fmt, 4)
  {
    assert fmt[0] == 0x25 && fmt[1] == 0x6c && fmt[2] == 0x6c && fmt[3] == c && fmt[4] == 0;
  }

  lemma SingleCommaLong(fmt: seq<byte>, c: byte)
    requires |fmt| >= 6 && fmt[..6] == [0x25, 0x27, 0x6c, 0x6c, c, 0] && c != 0
    ensures Single(fmt, 5)
  {
    assert fmt[0] == 0x25 && fmt[1] == 0x27 && fmt[2] == 0x6c && fmt[3] == 0x6c && fmt[4] == c && fmt[5] == 0;
  }

  lemma PrintsLong(directive: nat -> Directive, fmt: seq<byte>, c: byte, a: Arguments, text: seq<byte>)
    requires |fmt| >= 5 && fmt[..5] == [0x25, 0x6c, 0x6c, c, 0] && c != 0 && directive(0) == DirectiveAt(fmt, 0, a)
    requires FieldText(Converted(Spec(NO_FLAGS, 0, -1, true, c, 4), a)) == text
    ensures Prints(directive, 4, text) && Single(fmt, 4)
  {
    ParseLong(fmt, c, a);
    SingleLong(fmt, c);
    PrintsOf(directive, fmt, a, Spec(NO_FLAGS, 0, -1, true, c, 4), text);
  }

  lemma PrintsCommaLong(directive: nat -> Directive, fmt: seq<byte>, c: byte, a: Arguments, text: seq<byte>)
    requires |fmt| >= 6 && fmt[..6] == [0x25, 0x27, 0x6c, 0x6c, c, 0] && c != 0
    requires directive(0) == DirectiveAt(fmt, 0, a)
    requires FieldText(Converted(Spec(NO_FLAGS.(comma := true), 0, -1, true, c, 5), a)) == text
    ensures Prints(directive, 5, text) && Single(fmt, 5)
  {
    ParseCommaLong(fmt, c, a);
    SingleCommaLong(fmt, c);
    PrintsOf(directive, fmt, a, Spec(NO_FLAGS.(comma := true), 0, -1, true, c, 5), text);
  }

  /** dec2bin inverts the formatter on "%llu", for every number, buffer size and alignment. */
  method UnsignedThroughFormatter(n: nat, fmt: seq<byte>, fmtAddress: nat, args: nat -> Arguments,
                                  ghost directive: nat -> Directive, min: nat, address: nat -> nat)
    returns (text: seq<byte>, back: nat)
    requires n < WORD && args(0).number == n && min >= 1 && (fmtAddress + |fmt|) % 4 == 0
    requires |fmt| >= 5 && fmt[..5] == LLU && Agrees(directive, fmt, args)
    ensures Proper(PLAIN) && text == Spelled(Digits(n, 10), PLAIN) && back == n
  {
    FirstAgrees(directive, fmt, args);
    TextOfU(args(0));
    PrintsLong(directive, fmt, 0x75, args(0), Spelled(Digits(n, 10), PLAIN));
    DecimalsInverse(n);
    text, back := PrintAndRead(n, fmt, fmtAddress, 4, args, directive, min, address, Spelled(Digits(n, 10), PLAIN));
  }

  /** dec2bin inverts the formatter on "%'llu". */
  method GroupedThroughFormatter(n: nat, fmt: seq<byte>, fmtAddress: nat, args: nat -> Arguments,
                                 ghost directive: nat -> Directive, min: nat, address: nat -> nat)
    returns (text: seq<byte>, back: nat)
    requires n < WORD && args(0).number == n && min >= 1 && (fmtAddress + |fmt|) % 4 == 0
    requires |fmt| >= 6 && fmt[..6] == COMMA_LLU && Agrees(directive, fmt, args)
    ensures Proper(GROUPED) && text == Spelled(Digits(n, 10), GROUPED) && back == n
  {
    FirstAgrees(directive, fmt, args);
    TextOfCommaU(args(0));
    PrintsCommaLong(directive, fmt, 0x75, args(0), Spelled(Digits(n, 10), GROUPED));
    DecimalsInverse(n);
    text, back := PrintAndRead(n, fmt, fmtAddress, 5, args, directive, min, address, Spelled(Digits(n, 10), GROUPED));
  }

  method PrintAndRead(n: nat, fmt: seq<byte>, fmtAddress: nat, m: nat, args: nat -> Arguments,
                      ghost directive: nat -> Directive, min: nat, address: nat -> nat, ghost expected: seq<byte>)
    returns (text: seq<byte>, back: nat)
    requires n < WORD && min >= 1 && (fmtAddress + |fmt|) % 4 == 0 && Single(fmt, m) && Prints(directive, m, expected)
    requires Agrees(directive, fmt, args)
    requires Value(DecimalDigits(expected, DigitValue), 10) == n
    ensures text == expected && back == n
  {
    text := FormatSingle(fmt, fmtAddress, m, args, directive, min, address);
    back := Dec2Bin(text, DigitValue);
  }

  /** hex2bin inverts the formatter on "%llx". */
  method HexThroughFormatter(n: nat, fmt: seq<byte>, fmtAddress: nat, args: nat -> Arguments,
                             ghost directive: nat -> Directive, min: nat, address: nat -> nat)
    returns (text: seq<byte>, back: nat)
    requires n < WORD && args(0).number == n && min >= 1 && (fmtAddress + |fmt|) % 4 == 0
    requires |fmt| >= 5 && fmt[..5] == LLX && Agrees(directive, fmt, args)
    ensures Proper(HEX) && text == Spelled(Digits(n, 16), HEX) && back == n
  {
    FirstAgrees(directive, fmt, args);
    TextOfX(args(0));
    PrintsLong(directive, fmt, 0x78, args(0), Spelled(Digits(n, 16), HEX));
    HexInverse(n);
    text := FormatSingle(fmt, fmtAddress, 4, args, directive, min, address);
    back := ReadHex(text, n);
  }

  method ReadHex(text: seq<byte>, n: nat) returns (back: nat)
    requires Value(HexDigits(text, DigitValue), 16) == n && 1 <= |text| <= 16 && text[0] != NEWLINE
    ensures back == n
  {
    back := Hex2Bin(text, |text|, DigitValue);
    assert text[0..|text|] == text;
  }

  /** oct2bin inverts the formatter on "%llo". */
  method OctalThroughFormatter(n: nat, fmt: seq<byte>, fmtAddress: nat, args: nat -> Arguments,
                               ghost directive: nat -> Directive, min: nat, address: nat -> nat)
    returns (text: seq<byte>, back: nat)
    requires n < WORD && args(0).number == n && min >= 1 && (fmtAddress + |fmt|) % 4 == 0
    requires |fmt| >= 5 && fmt[..5] == LLO && Agrees(directive, fmt, args)
    ensures Proper(OCTAL) && text == Spelled(Digits(n, 8), OCTAL) && back == n
  {
    FirstAgrees(directive, fmt, args);
    TextOfO(args(0));
    PrintsLong(directive, fmt, 0x6f, args(0), Spelled(Digits(n, 8), OCTAL));
    text := FormatSingle(fmt, fmtAddress, 4, args, directive, min, address);
    back := ReadOctal(text, n);
  }

  method ReadOctal(text: seq<byte>, n: nat) returns (back: nat)
    requires n < WORD && Proper(OCTAL) && text == Spelled(Digits(n, 8), OCTAL)
    ensures back == n
  {
    OctalInverse(n);
    back := Oct2Bin(text, FromZero);
  }

  const PERCENT_P: seq<byte> := [0x25, 0x70, 0] // "%p"

  lemma ParsePointer(fmt: seq<byte>, a: Arguments)
    requires |fmt| >= 3 && fmt[..3] == PERCENT_P
    ensures ParseSpec(fmt, 0, a) == FormatMeaning.PLAIN_P && Single(fmt, 2)
  {
    assert fmt[0] == 0x25 && fmt[1] == 0x70 && fmt[2] == 0;
    assert ParseFlags(fmt, 1, NO_FLAGS) == (NO_FLAGS, 1);
    assert ParseDigits(fmt, 1, 0) == (0, 1);
  }

  lemma PrintsPointer(directive: nat -> Directive, fmt: seq<byte>, a: Arguments, text: seq<byte>)
    requires |fmt| >= 3 && fmt[..3] == PERCENT_P && directive(0) == DirectiveAt(fmt, 0, a)
    requires FieldText(Converted(FormatMeaning.PLAIN_P, a)) == text
    ensures Prints(directive, 2, text) && Single(fmt, 2)
  {
    ParsePointer(fmt, a);
    PrintsOf(directive, fmt, a, FormatMeaning.PLAIN_P, text);
  }

  /** The text can be read as a hexadecimal number. */
  ghost predicate Legible(text: seq<byte>, n: nat) {
    1 <= |text| <= 16 && text[0] != NEWLINE && Value(HexDigits(text, DigitValue), 16) == n
  }

  lemma SixteenLegible(text: seq<byte>, n: nat)
    requires FormatMeaning.Sixteen(text, n)
    ensures |text| == 16 && Legible(text, n)
  {
    NewlineValue();
  }

  lemma NewlineValue()
    ensures DigitValue(NEWLINE) == 16
  {
    IndexOfNone(LOWER, NEWLINE, 0);
    IndexOfNone(UPPER, NEWLINE, 0);
  }

  lemma PointerExpected(directive: nat -> Directive, fmt: seq<byte>, a: Arguments) returns (text: seq<byte>)
    requires |fmt| >= 3 && fmt[..3] == PERCENT_P && directive(0) == DirectiveAt(fmt, 0, a) && a.number < WORD
    ensures Prints(directive, 2, text) && Single(fmt, 2) && |text| == 16 && Legible(text, a.number)
  {
    text := FieldText(Converted(FormatMeaning.PLAIN_P, a));
    PrintsPointer(directive, fmt, a, text);
    FormatMeaning.PlainPointer(a);
    SixteenLegible(text, a.number);
  }

  method PrintAndReadHex(n: nat, fmt: seq<byte>, fmtAddress: nat, m: nat, args: nat -> Arguments,
                         ghost directive: nat -> Directive, min: nat, address: nat -> nat, ghost expected: seq<byte>)
    returns (text: seq<byte>, back: nat)
    requires min >= 1 && (fmtAddress + |fmt|) % 4 == 0 && Single(fmt, m) && Prints(directive, m, expected)
    requires Agrees(directive, fmt, args) && Legible(expected, n)
    ensures text == expected && back == n
  {
    text := FormatSingle(fmt, fmtAddress, m, args, directive, min, address);
    back := ReadHex(text, n);
  }

  /** hex2bin inverts the formatter on "%p". */
  method PointerThroughFormatter(n: nat, fmt: seq<byte>, fmtAddress: nat, args: nat -> Arguments,
                                 ghost directive: nat -> Directive, min: nat, address: nat -> nat)
    returns (text: seq<byte>, back: nat)
    requires n < WORD && args(0).number == n && min >= 1 && (fmtAddress + |fmt|) % 4 == 0
    requires |fmt| >= 3 && fmt[..3] == PERCENT_P && Agrees(directive, fmt, args)
    ensures |text| == 16 && back == n
  {
    FirstAgrees(directive, fmt, args);
    ghost var expected := PointerExpected(directive, fmt, args(0));
    text, back := PrintAndReadHex(n, fmt, fmtAddress, 2, args, directive, min, address, expected);
  }
}
