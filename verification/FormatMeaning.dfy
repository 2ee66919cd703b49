/** What a directive prints, said of its text: the number it stands for, its sign or prefix, and its layout. */
module FormatMeaning {
  import opened WordScan
  import opened FormatNumber
  import opened FormatConvert
  import opened FormatField
  import opened FormatShape
  import opened FormatDirective
  import opened NumberParsers

  // ----- reading a row of digits

  /** The digits of a row, its commas left out. */
  function Figures(s: seq<byte>): seq<nat> {
    Values(Uncomma(s), DigitValue)
  }

  /** The row is digits of the radix, with commas where they are due if these are asked for, and stands for `n`. */
  ghost predicate Spells(s: seq<byte>, n: nat, radix: nat, commas: bool, group: nat) {
    && |Figures(s)| >= 1 && (forall i :: 0 <= i < |Figures(s)| ==> Figures(s)[i] < radix)
    && Value(Figures(s), radix) == n
    && (if commas then forall i :: 0 <= i < |s| ==> CommaAt(s, group, i) else 0x2c !in s)
  }

  /** A row is no longer than the number and the precision `pr` ask for. */
  ghost predicate Short(s: seq<byte>, commas: bool, pr: int) {
    |Figures(s)| > 1 && Figures(s)[0] == 0 ==> |s| <= pr + if commas then 1 else 0
  }

  /** No letter of the other case. */
  predicate InCase(s: seq<byte>, upper: bool) {
    forall i :: 0 <= i < |s| ==> if upper then !(0x61 <= s[i] <= 0x7a) else !(0x41 <= s[i] <= 0x5a)
  }

  lemma SpelledFigures(d: seq<nat>, st: Style)
    requires Proper(st) && (st.table == LOWER || st.table == UPPER) && forall i :: 0 <= i < |d| ==> d[i] < 16
    ensures Figures(Spelled(d, st)) == d
  {
    UncommaSpelled(d, st);
    ReadsTables();
    Tables();
    ValuesReadBack(d, Style(st.table, 0), DigitValue);
  }

  lemma SpelledCommas(d: seq<nat>, st: Style)
    requires Proper(st) && forall i :: 0 <= i < |d| ==> d[i] < 16
    ensures var s := Spelled(d, st);
      if st.group > 0 then forall i :: 0 <= i < |s| ==> CommaAt(s, st.group, i) else 0x2c !in s
  {
    var s := Spelled(d, st);
    if st.group > 0 {
      forall i | 0 <= i < |s| ensures CommaAt(s, st.group, i) { CommaPlaces(d, st, i); }
    } else {
      PlainSpelled(d, st);
      forall i | 0 <= i < |s| ensures s[i] != 0x2c { NoCommaDigit(st.table, d[i]); }
    }
  }

  lemma SpelledSpells(d: seq<nat>, st: Style, radix: nat, n: nat)
    requires Proper(st) && (st.table == LOWER || st.table == UPPER) && IsRadix(radix) && d != []
    requires (forall i :: 0 <= i < |d| ==> d[i] < radix) && Value(d, radix) == n
    ensures Spells(Spelled(d, st), n, radix, st.group > 0, st.group)
  {
    SpelledFigures(d, st);
    SpelledCommas(d, st);
  }

  lemma TableCase(x: nat)
    requires x < 16
    ensures !(0x41 <= LOWER[x] <= 0x5a) && !(0x61 <= UPPER[x] <= 0x7a)
  {
  }

  lemma {:induction false} SpelledCase(d: seq<nat>, st: Style)
    requires Proper(st) && (st.table == LOWER || st.table == UPPER) && forall i :: 0 <= i < |d| ==> d[i] < 16
    ensures InCase(Spelled(d, st), st.table == UPPER)
  {
    if d != [] {
      TableCase(d[0]);
      SpelledCase(d[1..], st);
      TablesDiffer();
    }
  }

  lemma TablesDiffer()
    ensures LOWER != UPPER
  {
    assert LOWER[10] != UPPER[10];
  }

  /** The lowest digits stand for the number if nothing is left of it. */
  lemma {:induction false} LowValue(n: nat, radix: nat, k: nat)
    requires IsRadix(radix) && Shift(n, radix, k) == 0
    ensures Value(Low(n, radix, k), radix) == n
  {
    if k > 0 {
      var q, d := Quotient(n, radix), Low(n, radix, k);
      LowLast(n, radix, k - 1);
      ShiftFirst(n, radix, k - 1);
      LowValue(q, radix, k - 1);
      DivisionBack(n, radix);
      assert d[..k - 1] == Low(q, radix, k - 1);
    }
  }

  /** A leading zero is there for the precision only. */
  lemma RowShort(n: nat, radix: nat, st: Style, pr: int, k: nat)
    requires Enough(n, radix, st, pr, k) && (st.table == LOWER || st.table == UPPER)
    ensures Short(Spelled(Low(n, radix, k), st), st.group > 0, pr)
  {
    SpelledFigures(Low(n, radix, k), st);
    if k > 1 {
      SpelledMore(Remainder(Shift(n, radix, k - 1), radix), Low(n, radix, k - 1), st);
    }
  }

  // ----- what a text prints

  /** A row of digits for `n`: as many as the number and the precision ask for, and of one case. */
  ghost predicate Row(s: seq<byte>, n: nat, radix: nat, upper: bool, commas: bool, group: nat, pr: int) {
    Spells(s, n, radix, commas, group) && Short(s, commas, pr) && |s| >= pr && InCase(s, upper)
  }

  /** The text is `lead` and digits that stand for `n`, laid out as asked for. */
  ghost predicate Prints(s: seq<byte>, lead: seq<byte>, n: nat, radix: nat, upper: bool, pr: int, q: Request) {
    exists body :: Shaped(s, lead, body, q) && Row(body, n, radix, upper, q.commas, q.group, pr)
  }

  lemma RowField(f: Field, n: nat, radix: nat, upper: bool, pr: int)
    requires Row(f.body, n, radix, upper, f.commas, f.group, pr)
    ensures Prints(FieldText(f), f.lead, n, radix, upper, pr, RequestOf(f))
  {
    FieldShaped(f);
  }

  /** The low 32 or 64 bits of an argument. */
  function Word(n: nat, wide: bool): nat {
    n % if wide then 0x1_0000_0000_0000_0000 else 0x1_0000_0000
  }

  /** The number that these bits are in two's complement. */
  function Signed(n: nat, wide: bool): int {
    var w := Word(n, wide);
    if wide then if w >= 0x8000_0000_0000_0000 then w - 0x1_0000_0000_0000_0000 else w
    else if w >= 0x8000_0000 then w - 0x1_0000_0000 else w
  }

  /** How the flags, width and precision of a directive ask for its text to be laid out. */
  function Asked(d: Spec, group: nat, precision: int): Request {
    Request(d.flags.left, d.flags.zero, d.flags.comma, group, d.width, precision)
  }

  lemma SpelledRow(d: seq<nat>, st: Style, radix: nat, n: nat)
    requires Proper(st) && (st.table == LOWER || st.table == UPPER) && IsRadix(radix) && d != []
    requires (forall i :: 0 <= i < |d| ==> d[i] < radix) && Value(d, radix) == n && (|d| > 1 ==> d[0] != 0)
    ensures Row(Spelled(d, st), n, radix, st.table == UPPER, st.group > 0, st.group, 0)
  {
    SpelledSpells(d, st, radix, n);
    SpelledFigures(d, st);
    SpelledCase(d, st);
  }

  lemma DecimalStyle(comma: bool) returns (st: Style)
    ensures st == (if comma then GROUPED else PLAIN) && Proper(st) && st.table == LOWER && LOWER != UPPER
    ensures st.group == if comma then 3 else 0
  {
    Tables();
    TablesDiffer();
    st := if comma then GROUPED else PLAIN;
  }

  /** Without commas the group size does not matter. */
  lemma AnyGroup(s: seq<byte>, n: nat, radix: nat, upper: bool, group: nat, group': nat, pr: int)
    requires Row(s, n, radix, upper, false, group, pr)
    ensures Row(s, n, radix, upper, false, group', pr)
  {
  }

  lemma DecimalRow(v: nat, comma: bool)
    ensures Proper(GROUPED) && Proper(PLAIN)
    ensures Row(Spelled(Digits(v, 10), if comma then GROUPED else PLAIN), v, 10, false, comma, 3, 0)
  {
    Tables();
    var st := DecimalStyle(comma);
    ValueOfDigits(v, 10);
    CanonicalShort(v);
    SpelledRow(Digits(v, 10), st, 10, v);
    if !comma { AnyGroup(Spelled(Digits(v, 10), st), v, 10, false, 0, 3, 0); }
  }

  lemma CanonicalShort(v: nat)
    ensures |Digits(v, 10)| > 1 ==> Digits(v, 10)[0] != 0
  {
  }

  lemma UnsignedField(d: Spec, a: Arguments)
    requires d.conversion == 0x75
    ensures Proper(GROUPED) && Proper(PLAIN)
    ensures var f := Converted(d, a);
      && RequestOf(f) == Asked(d, 3, Max(d.precision, 0))
      && f.lead == (if d.flags.space then [0x20] else if d.flags.plus then [0x2b] else [])
      && f.body == Spelled(Digits(Word(a.number, d.wide), 10), if d.flags.comma then GROUPED else PLAIN)
  {
    Tables();
  }

  /** "%u": the unsigned value, after a space or plus sign if asked for. */
  lemma UnsignedMeaning(d: Spec, a: Arguments)
    requires d.conversion == 0x75
    ensures var lead := if d.flags.space then [0x20] else if d.flags.plus then [0x2b] else [];
      Prints(FieldText(Converted(d, a)), lead, Word(a.number, d.wide), 10, false, 0, Asked(d, 3, Max(d.precision, 0)))
  {
    UnsignedField(d, a);
    DecimalRow(Word(a.number, d.wide), d.flags.comma);
    RowField(Converted(d, a), Word(a.number, d.wide), 10, false, 0);
  }

  function Absolute(v: int): nat {
    if v < 0 then -v else v
  }

  lemma SignedField(d: Spec, a: Arguments)
    requires d.conversion == 0x64 || d.conversion == 0x69
    ensures Proper(GROUPED) && Proper(PLAIN)
    ensures var f, v := Converted(d, a), Signed(a.number, d.wide);
      && RequestOf(f) == Asked(d, 3, Max(d.precision, 0))
      && f.lead == (if v < 0 then [0x2d] else if d.flags.space then [0x20] else if d.flags.plus then [0x2b] else [])
      && f.body == Spelled(Digits(Absolute(v), 10), if d.flags.comma then GROUPED else PLAIN)
  {
    Tables();
  }

  /** "%d" and "%i": the two's complement value, after a minus sign if it is negative. */
  lemma SignedMeaning(d: Spec, a: Arguments)
    requires d.conversion == 0x64 || d.conversion == 0x69
    ensures var v := Signed(a.number, d.wide);
      var lead := if v < 0 then [0x2d] else if d.flags.space then [0x20] else if d.flags.plus then [0x2b] else [];
      Prints(FieldText(Converted(d, a)), lead, Absolute(v), 10, false, 0, Asked(d, 3, Max(d.precision, 0)))
  {
    var v := Signed(a.number, d.wide);
    SignedField(d, a);
    DecimalRow(Absolute(v), d.flags.comma);
    RowField(Converted(d, a), Absolute(v), 10, false, 0);
  }

  /** Digits of a power of two, after a prefix if asked for; nothing for 0 with precision 0. */
  ghost predicate PrintsRadix(s: seq<byte>, d: Spec, n: nat, radix: nat, upper: bool, group: nat, prefix: seq<byte>) {
    if n == 0 && d.precision == 0 then Shaped(s, [], [], Asked(d, 0, 0))
    else
      var lead := if d.flags.prefix && n != 0 then prefix else [];
      Prints(s, lead, n, radix, upper, d.precision, Asked(d, group, d.precision))
  }

  lemma NeededRow(v: nat, radix: nat, st: Style, pr: int)
    requires IsRadix(radix) && Proper(st) && (st.table == LOWER || st.table == UPPER)
    ensures var s := Spelled(Low(v, radix, DigitsNeeded(v, radix, st, pr, 1)), st);
      Row(s, v, radix, st.table == UPPER, st.group > 0, st.group, pr)
  {
    var k := DigitsNeeded(v, radix, st, pr, 1);
    NeededEnough(v, radix, st, pr, 1);
    LowValue(v, radix, k);
    SpelledSpells(Low(v, radix, k), st, radix, v);
    SpelledCase(Low(v, radix, k), st);
    RowShort(v, radix, st, pr, k);
  }

  lemma NothingField(radix: nat, table: seq<byte>, group: nat, prefix: seq<byte>, d: Spec, n: nat)
    requires IsRadix(radix) && (table == LOWER || table == UPPER) && (group == 3 || group == 4 || group == 8)
    requires Word(n, d.wide) == 0 && d.precision == 0
    ensures var f := RadixField(radix, table, group, prefix, d.flags, d.width, d.precision, d.wide, n);
      f.body == [] && f.lead == [] && RequestOf(f) == Asked(d, 0, 0)
  {
  }

  /** The fields of a radix field. */
  lemma RadixFields(radix: nat, table: seq<byte>, group: nat, prefix: seq<byte>, d: Spec, n: nat, st: Style)
    requires IsRadix(radix) && (table == LOWER || table == UPPER) && (group == 3 || group == 4 || group == 8)
    requires !(Word(n, d.wide) == 0 && d.precision == 0) && st == Style(table, if d.flags.comma then group else 0)
    requires Proper(st)
    ensures var f := RadixField(radix, table, group, prefix, d.flags, d.width, d.precision, d.wide, n);
      var v := Word(n, d.wide);
      && f.body == Spelled(Low(v, radix, DigitsNeeded(v, radix, st, d.precision, 1)), st)
      && f.lead == (if d.flags.prefix && v != 0 then prefix else []) && RequestOf(f) == Asked(d, group, d.precision)
  {
  }

  lemma RadixRow(radix: nat, table: seq<byte>, group: nat, prefix: seq<byte>, d: Spec, n: nat)
    requires IsRadix(radix) && (table == LOWER || table == UPPER) && (group == 3 || group == 4 || group == 8)
    requires !(Word(n, d.wide) == 0 && d.precision == 0)
    ensures var f := RadixField(radix, table, group, prefix, d.flags, d.width, d.precision, d.wide, n);
      && Row(f.body, Word(n, d.wide), radix, table == UPPER, f.commas, f.group, d.precision)
      && f.lead == (if d.flags.prefix && Word(n, d.wide) != 0 then prefix else [])
      && RequestOf(f) == Asked(d, group, d.precision)
  {
    var v, st := Word(n, d.wide), Style(table, if d.flags.comma then group else 0);
    Tables();
    RadixFields(radix, table, group, prefix, d, n, st);
    NeededRow(v, radix, st, d.precision);
    if !d.flags.comma {
      var f := RadixField(radix, table, group, prefix, d.flags, d.width, d.precision, d.wide, n);
      AnyGroup(f.body, v, radix, table == UPPER, 0, group, d.precision);
    }
  }

  lemma RadixPrints(radix: nat, table: seq<byte>, group: nat, prefix: seq<byte>, d: Spec, n: nat)
    requires IsRadix(radix) && (table == LOWER || table == UPPER) && (group == 3 || group == 4 || group == 8)
    ensures var f := RadixField(radix, table, group, prefix, d.flags, d.width, d.precision, d.wide, n);
      PrintsRadix(FieldText(f), d, Word(n, d.wide), radix, table == UPPER, group, prefix)
  {
    var f := RadixField(radix, table, group, prefix, d.flags, d.width, d.precision, d.wide, n);
    if Word(n, d.wide) == 0 && d.precision == 0 {
      NothingField(radix, table, group, prefix, d, n);
      FieldShaped(f);
    } else {
      RadixRow(radix, table, group, prefix, d, n);
      RowField(f, Word(n, d.wide), radix, table == UPPER, d.precision);
    }
  }

  lemma HexField(d: Spec, a: Arguments)
    requires d.conversion == 0x78 || d.conversion == 0x58
    ensures var table := if d.conversion == 0x58 then UPPER else LOWER;
      Converted(d, a) == RadixField(16, table, 4, [0x30, d.conversion], d.flags, d.width, d.precision, d.wide, a.number)
  {
  }

  /** "%x" and "%X": hexadecimal digits of the case of the directive. */
  lemma HexMeaning(d: Spec, a: Arguments)
    requires d.conversion == 0x78 || d.conversion == 0x58
    ensures var upper := d.conversion == 0x58;
      PrintsRadix(FieldText(Converted(d, a)), d, Word(a.number, d.wide), 16, upper, 4, [0x30, d.conversion])
  {
    var table := if d.conversion == 0x58 then UPPER else LOWER;
    TablesDiffer();
    HexField(d, a);
    RadixPrints(16, table, 4, [0x30, d.conversion], d, a.number);
  }

  lemma BinaryField(d: Spec, a: Arguments)
    requires d.conversion == 0x62 || d.conversion == 0x42
    ensures var table := if d.conversion == 0x42 then UPPER else LOWER;
      Converted(d, a) == RadixField(2, table, 8, [0x30, d.conversion], d.flags, d.width, d.precision, d.wide, a.number)
  {
  }

  /** "%b" and "%B": binary digits. */
  lemma BinaryMeaning(d: Spec, a: Arguments)
    requires d.conversion == 0x62 || d.conversion == 0x42
    ensures var upper := d.conversion == 0x42;
      PrintsRadix(FieldText(Converted(d, a)), d, Word(a.number, d.wide), 2, upper, 8, [0x30, d.conversion])
  {
    var table := if d.conversion == 0x42 then UPPER else LOWER;
    TablesDiffer();
    BinaryField(d, a);
    RadixPrints(2, table, 8, [0x30, d.conversion], d, a.number);
  }

  lemma OctalField(d: Spec, a: Arguments)
    requires d.conversion == 0x6f
    ensures Converted(d, a) == RadixField(8, UPPER, 3, [0x30], d.flags, d.width, d.precision, d.wide, a.number)
  {
  }

  /** "%o": octal digits. */
  lemma OctalMeaning(d: Spec, a: Arguments)
    requires d.conversion == 0x6f
    ensures PrintsRadix(FieldText(Converted(d, a)), d, Word(a.number, d.wide), 8, true, 3, [0x30])
  {
    OctalField(d, a);
    RadixPrints(8, UPPER, 3, [0x30], d, a.number);
  }

  /** What "%p" makes of a directive. */
  function AsPointer(d: Spec): Spec {
    d.(flags := d.flags.(zero := false), precision := 16, wide := true)
  }

  lemma PointerField(d: Spec, a: Arguments, p: Spec)
    requires d.conversion == 0x70 && p == AsPointer(d)
    ensures Converted(d, a) == RadixField(16, LOWER, 4, [0x30, 0x78], p.flags, p.width, p.precision, p.wide, a.number)
  {
  }

  /** "%p": the 64-bit value in hexadecimal, with precision 16 and no zero flag, whatever the directive says. */
  lemma PointerMeaning(d: Spec, a: Arguments)
    requires d.conversion == 0x70
    ensures var p := d.(flags := d.flags.(zero := false), precision := 16);
      PrintsRadix(FieldText(Converted(d, a)), p, a.number % 0x1_0000_0000_0000_0000, 16, false, 4, [0x30, 0x78])
  {
    var p := AsPointer(d);
    TablesDiffer();
    PointerField(d, a, p);
    RadixPrints(16, LOWER, 4, [0x30, 0x78], p, a.number);
  }

  // ----- texts

  /** "%c": the character. */
  lemma CharacterMeaning(d: Spec, a: Arguments)
    requires d.conversion == 0x63
    ensures Shaped(FieldText(Converted(d, a)), [], [a.character], Asked(d, 0, 0))
  {
    FieldShaped(Converted(d, a));
  }

  /** What "%s" prints of a string: all of it up to its terminator, but no more than the precision. */
  ghost predicate Printable(body: seq<byte>, memory: seq<byte>, pr: int) {
    var limit := if pr >= 0 then pr else 0xffff_ffff;
    && body <= memory && 0 !in body && |body| <= limit
    && (|body| == limit || |body| == |memory| || memory[|body|] == 0)
  }

  ghost predicate PrintsText(s: seq<byte>, memory: seq<byte>, pr: int, q: Request) {
    exists body :: Shaped(s, [], body, q) && Printable(body, memory, pr)
  }

  lemma TextField(d: Spec, a: Arguments)
    requires d.conversion == 0x73
    ensures var f := Converted(d, a); f.lead == [] && RequestOf(f) == Asked(d, 0, 0)
    ensures Printable(Converted(d, a).body, if a.isNull then [0x6e, 0x75, 0x6c, 0x6c] else a.text, d.precision)
  {
    TextCut(TextOf(a), d.precision);
    if a.isNull { NullText(a, d.precision); }
  }

  /** "%s": the string, or "null" for a null pointer. */
  lemma TextMeaning(d: Spec, a: Arguments)
    requires d.conversion == 0x73
    ensures var memory := if a.isNull then [0x6e, 0x75, 0x6c, 0x6c] else a.text;
      PrintsText(FieldText(Converted(d, a)), memory, d.precision, Asked(d, 0, 0))
  {
    TextField(d, a);
    FieldShaped(Converted(d, a));
  }

  lemma TextCut(memory: seq<byte>, pr: int)
    ensures Printable(memory[..Min(Length(memory), TextLimit(pr))], memory, pr)
  {
  }

  lemma NullText(a: Arguments, pr: int)
    requires a.isNull
    ensures Printable(TextOf(a)[..Min(Length(TextOf(a)), TextLimit(pr))], [0x6e, 0x75, 0x6c, 0x6c], pr)
  {
    var m := TextOf(a);
    assert m[0] != 0 && m[1] != 0 && m[2] != 0 && m[3] != 0 && m[4] == 0;
    assert Length(m) == 4;
    var l := Min(4, TextLimit(pr));
    assert m[..l] == NULL_TEXT[..l];
  }

  /** Letters without a meaning print themselves, without padding; "%n" prints nothing. */
  lemma OtherMeaning(d: Spec, a: Arguments)
    requires d.conversion !in {0x73, 0x63, 0x75, 0x64, 0x69, 0x62, 0x42, 0x6f, 0x78, 0x58, 0x70}
    ensures var s := FieldText(Converted(d, a));
      if d.conversion == 0x6e then s == []
      else if d.conversion in {0x41, 0x61, 0x47, 0x67, 0x45, 0x65, 0x66} then
        Shaped(s, [], [0x4e, 0x6f, 0x20, 0x66, 0x6c, 0x6f, 0x61, 0x74], Asked(d, 0, 0))
      else s == [d.conversion]
  {
    var f := Converted(d, a);
    if d.conversion in {0x41, 0x61, 0x47, 0x67, 0x45, 0x65, 0x66} { FieldShaped(f); } else { DefaultField(f); }
  }

  // ----- reading texts back

  /** Without a width, and with no precision beyond its digits, a text is its leader and its digits. */
  lemma Bare(s: seq<byte>, lead: seq<byte>, body: seq<byte>, q: Request)
    requires Shaped(s, lead, body, q) && q.width <= 0 && q.precision <= |body|
    ensures s == lead + body
  {
  }

  /** The number that a text with an optional minus sign stands for. */
  function SignedReading(s: seq<byte>): int {
    if s != [] && s[0] == 0x2d then -(Value(Figures(s[1..]), 10) as int) else Value(Figures(s), 10)
  }

  lemma FirstFigure(s: seq<byte>, n: nat)
    requires Spells(s, n, 10, false, 3)
    ensures s != [] && s[0] != 0x2d
  {
    MinusValue();
    assert Uncomma(s) == [s[0]] + Uncomma(s[1..]);
    assert Figures(s)[0] == DigitValue(s[0]);
  }

  lemma MinusValue()
    ensures DigitValue(0x2d) == 16
  {
    IndexOfNone(LOWER, 0x2d, 0);
    IndexOfNone(UPPER, 0x2d, 0);
  }

  /** "%d" and "%lld" of every argument read back as its two's complement value, without leading zeros. */
  lemma SignedReadBack(d: Spec, a: Arguments)
    requires (d.conversion == 0x64 || d.conversion == 0x69) && d.flags == NO_FLAGS && d.width == 0 && d.precision == -1
    ensures var s, v := FieldText(Converted(d, a)), Signed(a.number, d.wide);
      && SignedReading(s) == v
      && (|Figures(s)| > 1 && v >= 0 ==> Figures(s)[0] != 0) && (v < 0 ==> s[0] == 0x2d && Figures(s[1..])[0] != 0)
  {
    var s, v := FieldText(Converted(d, a)), Signed(a.number, d.wide);
    SignedMeaning(d, a);
    var q, lead := Asked(d, 3, 0), if v < 0 then [0x2d] else [];
    var body :| Shaped(s, lead, body, q) && Row(body, Absolute(v), 10, false, q.commas, q.group, 0);
    Bare(s, lead, body, q);
    FirstFigure(body, Absolute(v));
    RowFigures(body, Absolute(v));
    if v < 0 { assert s[1..] == body; } else { assert s == body; }
  }

  lemma {:induction false} UncommaLength(s: seq<byte>)
    ensures |Uncomma(s)| <= |s|
  {
    if s != [] { UncommaLength(s[1..]); }
  }

  /** A row for a number other than 0 begins with another digit than 0. */
  lemma RowFigures(s: seq<byte>, n: nat)
    requires Row(s, n, 10, false, false, 3, 0)
    ensures |Figures(s)| > 1 ==> Figures(s)[0] != 0
    ensures n > 0 ==> Figures(s)[0] != 0
  {
    UncommaLength(s);
    if |Figures(s)| == 1 { OneFigure(Figures(s)); }
  }

  lemma OneFigure(d: seq<nat>)
    requires |d| == 1
    ensures Value(d, 10) == d[0]
  {
    assert d[..0] == [];
  }

  lemma {:induction false} NoCommas(s: seq<byte>)
    requires 0x2c !in s
    ensures Uncomma(s) == s
  {
    if s != [] { NoCommas(s[1..]); }
  }

  lemma {:induction false} PowersRise(i: nat, j: nat)
    requires i <= j
    ensures Power(16, i) <= Power(16, j)
    decreases j
  {
    if i < j { PowersRise(i, j - 1); }
  }

  /** Digits that begin with another one than 0 stand for no less than their first place. */
  lemma FirstPlace(d: seq<nat>, k: nat)
    requires d != [] && d[0] != 0 && |d| > k
    ensures Value(d, 16) >= Power(16, k)
  {
    assert d == [d[0]] + d[1..];
    ValueFront(d[0], d[1..]);
    PowersRise(k, |d| - 1);
    TimesAtLeast(d[0], Power(16, |d| - 1));
  }

  lemma TimesAtLeast(x: nat, p: nat)
    requires x >= 1
    ensures x * p >= p
  {
  }

  /** Sixteen hexadecimal digits that stand for `n`. */
  ghost predicate Sixteen(s: seq<byte>, n: nat) {
    && |s| == 16 && (forall i :: 0 <= i < |s| ==> DigitValue(s[i]) < 16)
    && Value(HexDigits(s, DigitValue), 16) == n
  }

  /** A row of hexadecimal digits for a 64-bit number, with precision 16 and without commas, has 16 of them. */
  lemma SixteenDigits(s: seq<byte>, n: nat, k: nat)
    requires n < WORD && k == 16 && Row(s, n, 16, false, false, 4, k)
    ensures Sixteen(s, n)
  {
    NoCommas(s);
    HexSame(s, DigitValue, Figures(s));
    WordIsPower(k);
    if |s| > k && Figures(s)[0] != 0 { FirstPlace(Figures(s), k); }
  }

  lemma BarePrinted(s: seq<byte>, lead: seq<byte>, n: nat, radix: nat, upper: bool, pr: int, q: Request)
    returns (body: seq<byte>)
    requires Prints(s, lead, n, radix, upper, pr, q) && q.width <= 0 && q.precision <= pr
    ensures s == lead + body && Row(body, n, radix, upper, q.commas, q.group, pr)
  {
    body :| Shaped(s, lead, body, q) && Row(body, n, radix, upper, q.commas, q.group, pr);
    Bare(s, lead, body, q);
  }

  lemma SixteenPrinted(s: seq<byte>, n: nat, k: nat)
    requires n < WORD && k == 16 && Prints(s, [], n, 16, false, k, Request(false, false, false, 4, 0, k))
    ensures Sixteen(s, n)
  {
    var body := BarePrinted(s, [], n, 16, false, k, Request(false, false, false, 4, 0, k));
    assert s == body;
    SixteenDigits(body, n, k);
  }

  lemma SixteenOf(s: seq<byte>, d: Spec, n: nat, k: nat)
    requires n < WORD && k == 16 && d.flags == NO_FLAGS && d.width == 0 && d.precision == k
    requires PrintsRadix(s, d, n, 16, false, 4, [0x30, 0x78])
    ensures Sixteen(s, n)
  {
    SixteenPrinted(s, n, k);
  }

  lemma WordBelow(n: nat)
    ensures n % 0x1_0000_0000_0000_0000 < WORD
  {
  }

  /** "%p" of every argument is 16 hexadecimal digits for its 64 bits. */
  lemma PointerReadBack(d: Spec, a: Arguments, s: seq<byte>)
    requires d.conversion == 0x70 && d.flags == NO_FLAGS && d.width == 0 && s == FieldText(Converted(d, a))
    ensures Sixteen(s, a.number % 0x1_0000_0000_0000_0000)
  {
    PointerMeaning(d, a);
    WordBelow(a.number);
    SixteenOf(s, d.(flags := d.flags.(zero := false), precision := 16), a.number % 0x1_0000_0000_0000_0000, 16);
  }

  lemma SmallWord(n: nat)
    requires n < WORD
    ensures n % 0x1_0000_0000_0000_0000 == n
  {
  }

  const PLAIN_P := Spec(NO_FLAGS, 0, -1, false, 0x70, 2)

  lemma PlainPointer(a: Arguments)
    requires a.number < WORD
    ensures Sixteen(FieldText(Converted(PLAIN_P, a)), a.number)
  {
    PointerReadBack(PLAIN_P, a, FieldText(Converted(PLAIN_P, a)));
    SmallWord(a.number);
  }
}
