/** Directives written out, and how parsing reads them back. */
module DirectiveText {
  import opened WordScan
  import opened FormatDirective

  function Optional(on: bool, c: byte): seq<byte> {
    if on then [c] else []
  }

  predicate IsFigure(c: byte, d: nat) {
    0x30 <= c <= 0x39 && (c - 0x30) as nat == d
  }

  /** The character of a digit. */
  function Figure(d: nat): (c: byte)
    requires d < 10
    ensures IsFigure(c, d)
  {
    match d
    case 0 => 0x30
    case 1 => 0x31
    case 2 => 0x32
    case 3 => 0x33
    case 4 => 0x34
    case 5 => 0x35
    case 6 => 0x36
    case 7 => 0x37
    case 8 => 0x38
    case _ => 0x39
  }

  /** A number in the format. */
  function Decimal(n: nat): (s: seq<byte>)
    ensures |s| >= 1
  {
    if n < 10 then [Figure(n)] else Decimal(n / 10) + [Figure(n % 10)]
  }

  /** How a directive is written: the flags but for the zero, the size, and stars for arguments. */
  datatype Spelling = Spelling(marks: seq<byte>, size: seq<byte>, starWidth: bool, starPrecision: bool)

  /** Flags in any order, repeated or not; '$' and '_' stand for nothing. */
  predicate Marks(marks: seq<byte>, fl: Flags) {
    && (forall i :: 0 <= i < |marks| ==> Mark(marks[i]))
    && fl.left == (0x2d in marks) && fl.plus == (0x2b in marks) && fl.space == (0x20 in marks)
    && fl.prefix == (0x23 in marks) && fl.comma == (0x27 in marks)
  }

  predicate Mark(c: byte) {
    c in {0x2d, 0x2b, 0x20, 0x23, 0x27, 0x24, 0x5f}
  }

  /** "h", "hh", "I32" or nothing for 32 bits; "l", "ll", "j", "z", "t", "I64" or "I" for 64 bits. */
  predicate Sized(size: seq<byte>, wide: bool) {
    if wide then size in {[0x6c], [0x6c, 0x6c], [0x6a], [0x7a], [0x74], [0x49, 0x36, 0x34], [0x49]}
    else
      size in {[], [0x68], [0x68, 0x68], [0x49, 0x33, 0x32]}
  }

  predicate Spells(w: Spelling, d: Spec) {
    && Marks(w.marks, d.flags) && Sized(w.size, d.wide) && Converts(d.conversion)
    && (w.starWidth || d.width >= 0) && (w.starPrecision || d.precision >= -1)
  }

  /** The flags, the zero last. */
  function FlagText(marks: seq<byte>, zero: bool): seq<byte> {
    marks + Optional(zero, 0x30)
  }

  function WidthText(fw: int, star: bool): seq<byte>
    requires star || fw >= 0
  {
    if star then [0x2a] else if fw == 0 then [] else Decimal(fw)
  }

  function PrecisionText(pr: int, star: bool): seq<byte>
    requires star || pr >= -1
  {
    if star then [0x2e, 0x2a] else if pr == -1 then [] else [0x2e] + Decimal(pr)
  }

  /** A character that ends a directive wherever it stands. */
  predicate Converts(c: byte) {
    && c !in {0x2d, 0x2b, 0x20, 0x23, 0x27, 0x24, 0x5f, 0x2a, 0x2e} && !(0x30 <= c <= 0x39)
    && c !in {0x68, 0x6c, 0x6a, 0x7a, 0x74, 0x49}
  }

  /** The text stands at `i` in the format. */
  predicate Has(fmt: seq<byte>, i: nat, s: seq<byte>) {
    i + |s| <= |fmt| && fmt[i..i + |s|] == s
  }

  predicate NoFlag(c: byte) {
    c !in {0x2d, 0x2b, 0x20, 0x23, 0x27, 0x24, 0x5f, 0x30}
  }

  predicate NoDigit(c: byte) {
    !(0x30 <= c <= 0x39)
  }

  lemma HasSplit(fmt: seq<byte>, i: nat, s: seq<byte>, t: seq<byte>)
    requires Has(fmt, i, s + t)
    ensures Has(fmt, i, s) && Has(fmt, i + |s|, t)
  {
    assert fmt[i..i + |s + t|][..|s|] == fmt[i..i + |s|];
    assert fmt[i..i + |s + t|][|s|..] == fmt[i + |s|..i + |s| + |t|];
    assert (s + t)[..|s|] == s && (s + t)[|s|..] == t;
  }

  lemma HasFirst(fmt: seq<byte>, i: nat, s: seq<byte>)
    requires Has(fmt, i, s) && s != []
    ensures At(fmt, i) == s[0]
  {
    assert fmt[i..i + |s|][0] == fmt[i];
  }

  // Numbers

  /** Parsing on after a number read so far. */
  lemma {:induction false} DecimalRead(fmt: seq<byte>, i: nat, n: nat)
    requires Has(fmt, i, Decimal(n))
    ensures ParseDigits(fmt, i, 0) == ParseDigits(fmt, i + |Decimal(n)|, n)
  {
    if n < 10 {
      DigitRead(fmt, i, 0, n);
    } else {
      var front, last := Decimal(n / 10), [Figure(n % 10)];
      HasSplit(fmt, i, front, last);
      DecimalRead(fmt, i, n / 10);
      DecimalOn(fmt, i, i + |front|, n / 10, n % 10, n);
    }
  }

  lemma DecimalOn(fmt: seq<byte>, i: nat, j: nat, q: nat, r: nat, n: nat)
    requires ParseDigits(fmt, i, 0) == ParseDigits(fmt, j, q) && r < 10 && Has(fmt, j, [Figure(r)]) && n == q * 10 + r
    ensures ParseDigits(fmt, i, 0) == ParseDigits(fmt, j + 1, n)
  {
    DigitRead(fmt, j, q, r);
  }

  lemma DigitRead(fmt: seq<byte>, i: nat, n: nat, d: nat)
    requires d < 10 && Has(fmt, i, [Figure(d)])
    ensures ParseDigits(fmt, i, n) == ParseDigits(fmt, i + 1, n * 10 + d)
  {
    HasFirst(fmt, i, [Figure(d)]);
    FigureRead(fmt, i, n, d, Figure(d));
  }

  lemma FigureRead(fmt: seq<byte>, i: nat, n: nat, d: nat, c: byte)
    requires i < |fmt| && fmt[i] == c && IsFigure(c, d)
    ensures ParseDigits(fmt, i, n) == ParseDigits(fmt, i + 1, n * 10 + d)
  {
  }

  lemma NumberRead(fmt: seq<byte>, i: nat, n: nat)
    requires Has(fmt, i, Decimal(n)) && NoDigit(At(fmt, i + |Decimal(n)|))
    ensures ParseDigits(fmt, i, 0) == (n, i + |Decimal(n)|)
  {
    DecimalRead(fmt, i, n);
  }

  lemma {:induction false} NoLeadingZero(n: nat)
    requires n > 0
    ensures |Decimal(n)| >= 1 && Decimal(n)[0] != 0x30
  {
    if n >= 10 { NoLeadingZero(n / 10); }
  }

  // Flags

  function Marked(fl: Flags, marks: seq<byte>): Flags {
    Flags(fl.left || 0x2d in marks, fl.plus || 0x2b in marks, fl.space || 0x20 in marks,
          fl.prefix || 0x23 in marks, fl.comma || 0x27 in marks, fl.zero)
  }

  lemma MarkRead(fmt: seq<byte>, i: nat, fl: Flags, c: byte)
    requires i < |fmt| && fmt[i] == c && Mark(c)
    ensures ParseFlags(fmt, i, fl) == ParseFlags(fmt, i + 1, Marked(fl, [c]))
  {
  }

  lemma MarkedOn(fl: Flags, c: byte, rest: seq<byte>)
    ensures Marked(Marked(fl, [c]), rest) == Marked(fl, [c] + rest)
  {
  }

  lemma {:induction false} MarksRead(fmt: seq<byte>, i: nat, fl: Flags, marks: seq<byte>)
    requires Has(fmt, i, marks) && forall k :: 0 <= k < |marks| ==> Mark(marks[k])
    ensures ParseFlags(fmt, i, fl) == ParseFlags(fmt, i + |marks|, Marked(fl, marks))
    decreases |marks|
  {
    if marks != [] {
      var c, rest := marks[0], marks[1..];
      assert marks == [c] + rest;
      HasSplit(fmt, i, [c], rest);
      HasFirst(fmt, i, [c]);
      MarkRead(fmt, i, fl, c);
      MarksRead(fmt, i + 1, Marked(fl, [c]), rest);
      MarkedOn(fl, c, rest);
    }
  }

  lemma ZeroRead(fmt: seq<byte>, i: nat, fl: Flags, on: bool)
    requires Has(fmt, i, Optional(on, 0x30)) && !fl.zero && (on || NoFlag(At(fmt, i)))
    ensures ParseFlags(fmt, i, fl) == (fl.(zero := on), i + |Optional(on, 0x30)|)
  {
    if on { HasFirst(fmt, i, [0x30]); }
  }

  lemma MarkedAll(marks: seq<byte>, fl: Flags)
    requires Marks(marks, fl)
    ensures !Marked(NO_FLAGS, marks).zero && Marked(NO_FLAGS, marks).(zero := fl.zero) == fl
  {
  }

  lemma FlagsRead(fmt: seq<byte>, i: nat, marks: seq<byte>, fl: Flags)
    requires Marks(marks, fl) && Has(fmt, i, FlagText(marks, fl.zero))
    requires fl.zero || NoFlag(At(fmt, i + |FlagText(marks, fl.zero)|))
    ensures ParseFlags(fmt, i, NO_FLAGS) == (fl, i + |FlagText(marks, fl.zero)|)
  {
    HasSplit(fmt, i, marks, Optional(fl.zero, 0x30));
    MarksRead(fmt, i, NO_FLAGS, marks);
    MarkedAll(marks, fl);
    ZeroRead(fmt, i + |marks|, Marked(NO_FLAGS, marks), fl.zero);
  }

  // Width, precision and size

  lemma WidthRead(fmt: seq<byte>, i: nat, a: Arguments, fw: int, star: bool)
    requires (if star then a.width == fw else fw >= 0) && Has(fmt, i, WidthText(fw, star))
    requires star || (NoDigit(At(fmt, i + |WidthText(fw, star)|)) && At(fmt, i + |WidthText(fw, star)|) != 0x2a)
    ensures ParseWidth(fmt, i, a) == (fw, i + |WidthText(fw, star)|)
  {
    if star {
      HasFirst(fmt, i, [0x2a]);
    } else if fw > 0 {
      HasFirst(fmt, i, Decimal(fw));
      DecimalFirst(fw);
      NumberRead(fmt, i, fw);
    }
  }

  lemma {:induction false} DecimalFirst(n: nat)
    ensures 0x30 <= Decimal(n)[0] <= 0x39
  {
    if n >= 10 { DecimalFirst(n / 10); }
  }

  lemma PrecisionRead(fmt: seq<byte>, i: nat, a: Arguments, pr: int, star: bool)
    requires (if star then a.precision == pr else pr >= -1) && Has(fmt, i, PrecisionText(pr, star))
    requires star || (NoDigit(At(fmt, i + |PrecisionText(pr, star)|)) && At(fmt, i + |PrecisionText(pr, star)|) != 0x2e)
    ensures ParsePrecision(fmt, i, a) == (pr, i + |PrecisionText(pr, star)|)
  {
    if star {
      HasSplit(fmt, i, [0x2e], [0x2a]);
      HasFirst(fmt, i, [0x2e]);
      HasFirst(fmt, i + 1, [0x2a]);
    } else if pr >= 0 {
      HasSplit(fmt, i, [0x2e], Decimal(pr));
      HasFirst(fmt, i, [0x2e]);
      HasFirst(fmt, i + 1, Decimal(pr));
      DecimalFirst(pr);
      NumberRead(fmt, i + 1, pr);
    }
  }

  lemma SizeRead(fmt: seq<byte>, i: nat, size: seq<byte>, wide: bool)
    requires Sized(size, wide) && Has(fmt, i, size) && Converts(At(fmt, i + |size|))
    ensures ParseSize(fmt, i) == (wide, i + |size|)
  {
    forall k: nat | k < |size| ensures At(fmt, i + k) == size[k] { assert fmt[i..i + |size|][k] == fmt[i + k]; }
    if |size| == 1 {
      assert At(fmt, i + 0) == size[0];
    } else if |size| == 2 {
      assert At(fmt, i + 0) == size[0] && At(fmt, i + 1) == size[1];
    } else if |size| == 3 {
      assert At(fmt, i + 0) == size[0] && At(fmt, i + 1) == size[1] && At(fmt, i + 2) == size[2];
    }
  }

  // Directives

  function SizeOn(d: Spec, w: Spelling): (s: seq<byte>)
    ensures |s| == |w.size| + 1
  {
    w.size + [d.conversion]
  }

  function PrecisionOn(d: Spec, w: Spelling): (s: seq<byte>)
    requires w.starPrecision || d.precision >= -1
    ensures |s| == |PrecisionText(d.precision, w.starPrecision)| + |SizeOn(d, w)|
  {
    PrecisionText(d.precision, w.starPrecision) + SizeOn(d, w)
  }

  function WidthOn(d: Spec, w: Spelling): (s: seq<byte>)
    requires (w.starWidth || d.width >= 0) && (w.starPrecision || d.precision >= -1)
    ensures |s| == |WidthText(d.width, w.starWidth)| + |PrecisionOn(d, w)|
  {
    WidthText(d.width, w.starWidth) + PrecisionOn(d, w)
  }

  /**
   A directive written out, with its percent sign. A width or precision written as a star is taken
   from the arguments.
   */
  function SpecText(d: Spec, w: Spelling): (s: seq<byte>)
    requires (w.starWidth || d.width >= 0) && (w.starPrecision || d.precision >= -1)
    ensures |s| == 1 + |FlagText(w.marks, d.flags.zero)| + |WidthOn(d, w)|
  {
    [PERCENT] + (FlagText(w.marks, d.flags.zero) + WidthOn(d, w))
  }

  /** Neither a digit nor a star nor a flag. */
  predicate EndsWidth(c: byte) {
    NoFlag(c) && NoDigit(c) && c != 0x2a
  }

  lemma SizeFirst(d: Spec, w: Spelling)
    requires Sized(w.size, d.wide) && Converts(d.conversion)
    ensures EndsWidth(SizeOn(d, w)[0]) && SizeOn(d, w)[0] != 0x2e
  {
  }

  lemma PrecisionFirst(d: Spec, w: Spelling)
    requires (w.starPrecision || d.precision >= -1) && Sized(w.size, d.wide) && Converts(d.conversion)
    ensures EndsWidth(PrecisionOn(d, w)[0])
  {
    SizeFirst(d, w);
  }

  lemma WidthFirst(fw: int, star: bool, rest: seq<byte>)
    requires (star || fw >= 0) && rest != [] && NoFlag(rest[0])
    ensures NoFlag((WidthText(fw, star) + rest)[0])
  {
    if !star && fw > 0 {
      DecimalFirst(fw);
      NoLeadingZero(fw);
    }
  }

  lemma Peel(fmt: seq<byte>, i: nat, s: seq<byte>, rest: seq<byte>)
    requires Has(fmt, i, s + rest) && rest != []
    ensures Has(fmt, i, s) && Has(fmt, i + |s|, rest) && At(fmt, i + |s|) == rest[0]
  {
    HasSplit(fmt, i, s, rest);
    HasFirst(fmt, i + |s|, rest);
  }

  lemma FlagsOnward(fmt: seq<byte>, i: nat, marks: seq<byte>, fl: Flags, rest: seq<byte>)
    requires Marks(marks, fl) && Has(fmt, i, FlagText(marks, fl.zero) + rest) && rest != [] && NoFlag(rest[0])
    ensures var j := i + |FlagText(marks, fl.zero)|; ParseFlags(fmt, i, NO_FLAGS) == (fl, j) && Has(fmt, j, rest)
  {
    Peel(fmt, i, FlagText(marks, fl.zero), rest);
    FlagsRead(fmt, i, marks, fl);
  }

  lemma WidthOnward(fmt: seq<byte>, i: nat, a: Arguments, fw: int, star: bool, rest: seq<byte>)
    requires (if star then a.width == fw else fw >= 0) && rest != [] && EndsWidth(rest[0])
    requires Has(fmt, i, WidthText(fw, star) + rest)
    ensures var j := i + |WidthText(fw, star)|; ParseWidth(fmt, i, a) == (fw, j) && Has(fmt, j, rest)
  {
    Peel(fmt, i, WidthText(fw, star), rest);
    WidthRead(fmt, i, a, fw, star);
  }

  lemma PrecisionOnward(fmt: seq<byte>, i: nat, a: Arguments, pr: int, star: bool, rest: seq<byte>)
    requires if star then a.precision == pr else pr >= -1
    requires rest != [] && NoDigit(rest[0]) && rest[0] != 0x2e && Has(fmt, i, PrecisionText(pr, star) + rest)
    ensures var j := i + |PrecisionText(pr, star)|; ParsePrecision(fmt, i, a) == (pr, j) && Has(fmt, j, rest)
  {
    Peel(fmt, i, PrecisionText(pr, star), rest);
    PrecisionRead(fmt, i, a, pr, star);
  }

  lemma SizeOnward(fmt: seq<byte>, i: nat, size: seq<byte>, wide: bool, c: byte)
    requires Sized(size, wide) && Converts(c) && Has(fmt, i, size + [c])
    ensures ParseSize(fmt, i) == (wide, i + |size|) && At(fmt, i + |size|) == c
  {
    Peel(fmt, i, size, [c]);
    SizeRead(fmt, i, size, wide);
  }

  lemma WidthOnFirst(d: Spec, w: Spelling)
    requires Spells(w, d)
    ensures NoFlag(WidthOn(d, w)[0])
  {
    PrecisionFirst(d, w);
    WidthFirst(d.width, w.starWidth, PrecisionOn(d, w));
  }

  lemma AfterPercent(fmt: seq<byte>, f: nat, marks: seq<byte>, fl: Flags, rest: seq<byte>) returns (i: nat)
    requires Marks(marks, fl) && Has(fmt, f, [PERCENT] + (FlagText(marks, fl.zero) + rest))
    requires rest != [] && NoFlag(rest[0])
    ensures ParseFlags(fmt, f + 1, NO_FLAGS) == (fl, i) && Has(fmt, i, rest)
    ensures i == f + 1 + |FlagText(marks, fl.zero)|
  {
    HasSplit(fmt, f, [PERCENT], FlagText(marks, fl.zero) + rest);
    FlagsOnward(fmt, f + 1, marks, fl, rest);
    i := f + 1 + |FlagText(marks, fl.zero)|;
  }

  lemma FlagsPlace(fmt: seq<byte>, f: nat, d: Spec, w: Spelling) returns (i: nat)
    requires Spells(w, d) && Has(fmt, f, SpecText(d, w))
    ensures ParseFlags(fmt, f + 1, NO_FLAGS) == (d.flags, i) && Has(fmt, i, WidthOn(d, w))
    ensures i + |WidthOn(d, w)| == f + |SpecText(d, w)|
  {
    WidthOnFirst(d, w);
    i := AfterPercent(fmt, f, w.marks, d.flags, WidthOn(d, w));
  }

  lemma WidthPlace(fmt: seq<byte>, i: nat, a: Arguments, d: Spec, w: Spelling) returns (j: nat)
    requires Spells(w, d) && (w.starWidth ==> a.width == d.width) && Has(fmt, i, WidthOn(d, w))
    ensures ParseWidth(fmt, i, a) == (d.width, j) && Has(fmt, j, PrecisionOn(d, w))
    ensures j + |PrecisionOn(d, w)| == i + |WidthOn(d, w)|
  {
    PrecisionFirst(d, w);
    WidthOnward(fmt, i, a, d.width, w.starWidth, PrecisionOn(d, w));
    j := i + |WidthText(d.width, w.starWidth)|;
  }

  lemma PrecisionPlace(fmt: seq<byte>, j: nat, a: Arguments, d: Spec, w: Spelling) returns (k: nat)
    requires Spells(w, d) && (w.starPrecision ==> a.precision == d.precision) && Has(fmt, j, PrecisionOn(d, w))
    ensures ParsePrecision(fmt, j, a) == (d.precision, k) && Has(fmt, k, SizeOn(d, w))
    ensures k + |SizeOn(d, w)| == j + |PrecisionOn(d, w)|
  {
    SizeFirst(d, w);
    PrecisionOnward(fmt, j, a, d.precision, w.starPrecision, SizeOn(d, w));
    k := j + |PrecisionText(d.precision, w.starPrecision)|;
  }

  lemma SizePlace(fmt: seq<byte>, k: nat, d: Spec, w: Spelling) returns (e: nat)
    requires Spells(w, d) && Has(fmt, k, SizeOn(d, w))
    ensures ParseSize(fmt, k) == (d.wide, e) && At(fmt, e) == d.conversion && e + 1 == k + |SizeOn(d, w)|
  {
    SizeOnward(fmt, k, w.size, d.wide, d.conversion);
    e := k + |w.size|;
  }

  /** Parsing reads back every directive, however it is spelled and wherever it stands. */
  lemma SpecRead(fmt: seq<byte>, f: nat, a: Arguments, d: Spec, w: Spelling)
    requires Spells(w, d) && Has(fmt, f, SpecText(d, w))
    requires (w.starWidth ==> a.width == d.width) && (w.starPrecision ==> a.precision == d.precision)
    ensures ParseSpec(fmt, f, a) == d.(next := f + |SpecText(d, w)|)
  {
    var i := FlagsPlace(fmt, f, d, w);
    var j := WidthPlace(fmt, i, a, d, w);
    var k := PrecisionPlace(fmt, j, a, d, w);
    var e := SizePlace(fmt, k, d, w);
    SpecParts(fmt, f, a, (d.flags, i), (d.width, j), (d.precision, k), (d.wide, e));
  }
}
