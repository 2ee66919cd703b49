/** Directives: flags, width, precision, argument size and conversion, and the field they come to. */
module FormatDirective {
  import opened WordScan
  import opened FormatNumber
  import opened FormatConvert
  import opened FormatField

  const HALF := 0x1_0000_0000
  const SIGN := 0x8000_0000_0000_0000
  const SIGN_HALF := 0x8000_0000

  /** The arguments fetched for one directive, as far as it asks for them. */
  datatype Arguments = Arguments(width: int, precision: int, number: nat, character: byte,
                                 isNull: bool, text: seq<byte>, textAddress: nat)

  const NULL_TEXT: seq<byte> := [0x6e, 0x75, 0x6c, 0x6c] // "null"

  /** The memory of a string argument, from its address to a word boundary; a null pointer reads as "null". */
  function TextOf(a: Arguments): seq<byte> {
    if a.isNull then NULL_TEXT + Repeat(0, 4 - a.textAddress % 4) else a.text
  }

  /** How much of a string argument is printed at most. */
  function TextLimit(pr: int): nat {
    if pr >= 0 then pr else HALF - 1
  }

  /** A string argument is terminated, or long enough for its precision. */
  predicate TextOk(pr: int, a: Arguments) {
    a.isNull || ((a.textAddress + |a.text|) % 4 == 0 && (0 in a.text || TextLimit(pr) <= |a.text|))
  }

  datatype Flags = Flags(left: bool, plus: bool, space: bool, prefix: bool, comma: bool, zero: bool)

  /** A directive as parsed: flags, width, precision, argument size, conversion character, and what comes next. */
  datatype Spec = Spec(flags: Flags, width: int, precision: int, wide: bool, conversion: byte, next: nat)

  const NO_FLAGS := Flags(false, false, false, false, false, false)

  /** A byte of the format; nothing behind its end is looked at. */
  function At(fmt: seq<byte>, i: nat): byte {
    if i < |fmt| then fmt[i] else 0
  }

  /** The flags from offset `i` on. A zero ends them. */
  function ParseFlags(fmt: seq<byte>, i: nat, fl: Flags): (r: (Flags, nat))
    ensures i <= r.1 && forall j :: i <= j < r.1 ==> At(fmt, j) != 0
    decreases |fmt| - i
  {
    if i >= |fmt| then (fl, i)
    else if fmt[i] == 0x2d then ParseFlags(fmt, i + 1, fl.(left := true))
    else if fmt[i] == 0x2b then ParseFlags(fmt, i + 1, fl.(plus := true))
    else if fmt[i] == 0x20 then ParseFlags(fmt, i + 1, fl.(space := true))
    else if fmt[i] == 0x23 then ParseFlags(fmt, i + 1, fl.(prefix := true))
    else if fmt[i] == 0x27 then ParseFlags(fmt, i + 1, fl.(comma := true))
    else if fmt[i] == 0x24 || fmt[i] == 0x5f then ParseFlags(fmt, i + 1, fl) // metric suffixes, unused without floats
    else if fmt[i] == 0x30 then (fl.(zero := true), i + 1)
    else (fl, i)
  }

  /** A decimal number in the format. */
  function ParseDigits(fmt: seq<byte>, i: nat, n: nat): (r: (nat, nat))
    ensures i <= r.1 && forall j :: i <= j < r.1 ==> At(fmt, j) != 0
    decreases |fmt| - i
  {
    if i < |fmt| && 0x30 <= fmt[i] <= 0x39 then ParseDigits(fmt, i + 1, n * 10 + (fmt[i] - 0x30) as nat) else (n, i)
  }

  function ParseWidth(fmt: seq<byte>, i: nat, a: Arguments): (r: (int, nat))
    ensures i <= r.1 && forall j :: i <= j < r.1 ==> At(fmt, j) != 0
  {
    if At(fmt, i) == 0x2a then (a.width, i + 1) else ParseDigits(fmt, i, 0)
  }

  function ParsePrecision(fmt: seq<byte>, i: nat, a: Arguments): (r: (int, nat))
    ensures i <= r.1 && forall j :: i <= j < r.1 ==> At(fmt, j) != 0
  {
    if At(fmt, i) != 0x2e then (-1, i)
    else if At(fmt, i + 1) == 0x2a then (a.precision, i + 2)
    else ParseDigits(fmt, i + 1, 0)
  }

  /** Whether the value has 64 bits. */
  function ParseSize(fmt: seq<byte>, i: nat): (r: (bool, nat))
    ensures i <= r.1 && forall j :: i <= j < r.1 ==> At(fmt, j) != 0
  {
    var c := At(fmt, i);
    if c == 0x68 then (false, if At(fmt, i + 1) == 0x68 then i + 2 else i + 1) // h, hh
    else if c == 0x6c then (true, if At(fmt, i + 1) == 0x6c then i + 2 else i + 1) // l, ll
    else if c == 0x6a || c == 0x7a || c == 0x74 then (true, i + 1) // j, z, t
    else if c == 0x49 && At(fmt, i + 1) == 0x36 && At(fmt, i + 2) == 0x34 then (true, i + 3) // I64
    else if c == 0x49 && At(fmt, i + 1) == 0x33 && At(fmt, i + 2) == 0x32 then (false, i + 3) // I32
    else if c == 0x49 then (true, i + 1)
    else (false, i)
  }

  /** The number of digits that the radix loop writes, from `k` on. */
  function DigitsNeeded(n: nat, radix: nat, st: Style, pr: int, k: nat): (m: nat)
    requires IsRadix(radix) && Proper(st)
    decreases Shift(n, radix, k) + if pr > k then pr - k else 0
  {
    SpelledLength(Low(n, radix, k), st);
    if Shift(n, radix, k) == 0 && |Spelled(Low(n, radix, k), st)| >= pr then k
    else DigitsNeeded(n, radix, st, pr, k + 1)
  }

  lemma {:induction false} NeededEnough(n: nat, radix: nat, st: Style, pr: int, k: nat)
    requires IsRadix(radix) && Proper(st) && k >= 1
    requires k > 1 ==> Shift(n, radix, k - 1) != 0 || |Spelled(Low(n, radix, k - 1), st)| < pr
    ensures Enough(n, radix, st, pr, DigitsNeeded(n, radix, st, pr, k))
    decreases Shift(n, radix, k) + if pr > k then pr - k else 0
  {
    SpelledLength(Low(n, radix, k), st);
    if !(Shift(n, radix, k) == 0 && |Spelled(Low(n, radix, k), st)| >= pr) {
      NeededEnough(n, radix, st, pr, k + 1);
    }
  }

  lemma {:induction false} LowGrows(n: nat, radix: nat, st: Style, i: nat, j: nat)
    requires IsRadix(radix) && Proper(st) && i <= j
    ensures |Spelled(Low(n, radix, i), st)| <= |Spelled(Low(n, radix, j), st)|
    decreases j
  {
    if i < j {
      LowGrows(n, radix, st, i, j - 1);
      SpelledMore(Remainder(Shift(n, radix, j - 1), radix), Low(n, radix, j - 1), st);
    }
  }

  lemma EnoughOnce(n: nat, radix: nat, st: Style, pr: int, i: nat, j: nat)
    requires Enough(n, radix, st, pr, i) && Enough(n, radix, st, pr, j)
    ensures j <= i
  {
    if i < j {
      ShiftZero(n, radix, i, j - 1);
      LowGrows(n, radix, st, i, j - 1);
    }
  }

  /** The radix loop writes the digits that the field function says. */
  lemma RadixBody(s: seq<byte>, n: nat, radix: nat, st: Style, pr: int, k: nat)
    requires IsRadix(radix) && Proper(st) && Ended(s, n, radix, st, pr, k)
    ensures s == Spelled(Low(n, radix, DigitsNeeded(n, radix, st, pr, 1)), st)
  {
    var m := DigitsNeeded(n, radix, st, pr, 1);
    NeededEnough(n, radix, st, pr, 1);
    EnoughOnce(n, radix, st, pr, k, m);
    EnoughOnce(n, radix, st, pr, m, k);
  }

  function SignLead(negative: bool, fl: Flags): seq<byte> {
    if negative then [0x2d] else if fl.space then [0x20] else if fl.plus then [0x2b] else []
  }

  /** The magnitude and sign of an integer argument. */
  function Magnitude(n: nat, signed: bool, wide: bool): (r: (nat, bool))
    ensures r.0 < WORD
  {
    var v := if wide then n % WORD else n % HALF;
    if signed && wide && v >= SIGN then (WORD - v, true)
    else if signed && !wide && v >= SIGN_HALF then (HALF - v, true)
    else (v, false)
  }

  function IntegerField(signed: bool, fl: Flags, fw: int, pr: int, wide: bool, n: nat): (f: Field)
    ensures ProperField(f)
  {
    Tables();
    var (v, negative) := Magnitude(n, signed, wide);
    Field(Spelled(Digits(v, 10), if fl.comma then GROUPED else PLAIN), SignLead(negative, fl),
          3, fl.comma, fl.left, fl.zero, fw, Max(pr, 0))
  }

  function RadixField(radix: nat, table: seq<byte>, group: nat, prefix: seq<byte>, fl: Flags, fw: int, pr: int,
                      wide: bool, n: nat): (f: Field)
    requires IsRadix(radix) && (table == LOWER || table == UPPER) && (group == 3 || group == 4 || group == 8)
    ensures ProperField(f)
  {
    Tables();
    var v := if wide then n % WORD else n % HALF;
    var st := Style(table, if fl.comma then group else 0);
    if v == 0 && pr == 0 then Field([], [], 0, fl.comma, fl.left, fl.zero, fw, pr)
    else Field(Spelled(Low(v, radix, DigitsNeeded(v, radix, st, pr, 1)), st),
               if fl.prefix && v != 0 then prefix else [],
               group, fl.comma, fl.left, fl.zero, fw, pr)
  }

  function PlainField(body: seq<byte>, fl: Flags, fw: int): (f: Field)
    ensures ProperField(f)
  {
    Field(body, [], 0, fl.comma, fl.left, fl.zero, fw, 0)
  }

  const NO_FLOAT: seq<byte> := [0x4e, 0x6f, 0x20, 0x66, 0x6c, 0x6f, 0x61, 0x74] // "No float"

  /** The field that a directive comes to. */
  function Converted(d: Spec, a: Arguments): (f: Field)
    ensures ProperField(f)
  {
    var (fl, fw, pr, wide, c) := (d.flags, d.width, d.precision, d.wide, d.conversion);
    if c == 0x73 then // s
      PlainField(TextOf(a)[..Min(Length(TextOf(a)), TextLimit(pr))], fl, fw)
    else if c == 0x63 then PlainField([a.character], fl, fw) // c
    else if c == 0x6e then PlainField([], NO_FLAGS, 0) // n
    else if c == 0x75 then IntegerField(false, fl, fw, pr, wide, a.number) // u
    else if c == 0x64 || c == 0x69 then IntegerField(true, fl, fw, pr, wide, a.number) // d, i
    else if c == 0x62 then RadixField(2, LOWER, 8, [0x30, 0x62], fl, fw, pr, wide, a.number) // b
    else if c == 0x42 then RadixField(2, UPPER, 8, [0x30, 0x42], fl, fw, pr, wide, a.number) // B
    else if c == 0x6f then RadixField(8, UPPER, 3, [0x30], fl, fw, pr, wide, a.number) // o
    else if c == 0x78 then RadixField(16, LOWER, 4, [0x30, 0x78], fl, fw, pr, wide, a.number) // x
    else if c == 0x58 then RadixField(16, UPPER, 4, [0x30, 0x58], fl, fw, pr, wide, a.number) // X
    else if c == 0x70 then RadixField(16, LOWER, 4, [0x30, 0x78], fl.(zero := false), fw, 16, true, a.number) // p
    else if c == 0x41 || c == 0x61 || c == 0x47 || c == 0x67 || c == 0x45 || c == 0x65 || c == 0x66 then
      PlainField(NO_FLOAT, fl, fw) // A a G g E e f
    else PlainField([c], NO_FLAGS, 0)
  }

  /** The format goes on between `g` and `i`. */
  ghost predicate GoesOn(fmt: seq<byte>, g: nat, i: nat) {
    g < i && forall j :: g < j < i ==> At(fmt, j) != 0
  }

  /** The directive ends with its conversion character. */
  ghost predicate SpecOk(fmt: seq<byte>, f: nat, d: Spec) {
    d.next > 0 && GoesOn(fmt, f, d.next - 1) && d.conversion == At(fmt, d.next - 1)
  }

  /** The directive that begins with the percent sign at `f`. */
  function ParseSpec(fmt: seq<byte>, f: nat, a: Arguments): (d: Spec)
    ensures SpecOk(fmt, f, d)
  {
    var (fl, i) := ParseFlags(fmt, f + 1, NO_FLAGS);
    var (fw, j) := ParseWidth(fmt, i, a);
    var (pr, k) := ParsePrecision(fmt, j, a);
    var (wide, c) := ParseSize(fmt, k);
    Spec(fl, fw, pr, wide, At(fmt, c), c + 1)
  }

  lemma EndsBefore(fmt: seq<byte>, n: nat, g: nat, i: nat)
    requires g < n && GoesOn(fmt, g, i) && At(fmt, n) == 0 && forall j: nat :: j < n ==> At(fmt, j) != 0
    ensures At(fmt, i) != 0 <==> i + 1 <= n
  {
  }

  lemma EndsInside(fmt: seq<byte>, g: nat, i: nat)
    requires Length(fmt) < |fmt| && g < Length(fmt) && GoesOn(fmt, g, i)
    ensures At(fmt, i) != 0 <==> i + 1 <= Length(fmt)
  {
    EndsBefore(fmt, Length(fmt), g, i);
  }

  /** A directive that begins inside the format ends inside it exactly if it has a conversion character. */
  lemma SpecEnds(fmt: seq<byte>, g: nat, d: Spec)
    requires Length(fmt) < |fmt| && g < Length(fmt) && SpecOk(fmt, g, d)
    ensures d.conversion != 0 <==> g < d.next <= Length(fmt)
  {
    EndsInside(fmt, g, d.next - 1);
  }

  /** A converted directive and the offset behind it. */
  datatype Directive = Directive(field: Field, next: nat)

  function DirectiveAt(fmt: seq<byte>, f: nat, a: Arguments): Directive {
    Directive(Converted(ParseSpec(fmt, f, a), a), ParseSpec(fmt, f, a).next)
  }

  // The code

  method ReadFlags(fmt: seq<byte>, i0: nat) returns (fl: Flags, i: nat)
    ensures (fl, i) == ParseFlags(fmt, i0, NO_FLAGS)
  {
    fl, i := NO_FLAGS, i0;
    while At(fmt, i) in {0x2d, 0x2b, 0x20, 0x23, 0x27, 0x24, 0x5f}
      invariant ParseFlags(fmt, i0, NO_FLAGS) == ParseFlags(fmt, i, fl)
      decreases |fmt| - i
    {
      match fmt[i] {
        case 0x2d => fl := fl.(left := true);
        case 0x2b => fl := fl.(plus := true);
        case 0x20 => fl := fl.(space := true);
        case 0x23 => fl := fl.(prefix := true);
        case 0x27 => fl := fl.(comma := true);
        case _ =>
      }
      i := i + 1;
    }
    if At(fmt, i) == 0x30 {
      fl := fl.(zero := true);
      i := i + 1;
    }
  }

  method ReadDigits(fmt: seq<byte>, i0: nat) returns (n: nat, i: nat)
    ensures (n, i) == ParseDigits(fmt, i0, 0)
  {
    n, i := 0, i0;
    while 0x30 <= At(fmt, i) <= 0x39
      invariant ParseDigits(fmt, i0, 0) == ParseDigits(fmt, i, n)
      decreases |fmt| - i
    {
      n := n * 10 + (fmt[i] - 0x30) as nat;
      i := i + 1;
    }
  }

  method ReadWidth(fmt: seq<byte>, i: nat, a: Arguments) returns (fw: int, j: nat)
    ensures (fw, j) == ParseWidth(fmt, i, a)
  {
    if At(fmt, i) == 0x2a {
      return a.width, i + 1;
    }
    fw, j := ReadDigits(fmt, i);
  }

  method ReadPrecision(fmt: seq<byte>, i: nat, a: Arguments) returns (pr: int, j: nat)
    ensures (pr, j) == ParsePrecision(fmt, i, a)
  {
    pr, j := -1, i;
    if At(fmt, i) == 0x2e {
      if At(fmt, i + 1) == 0x2a {
        pr, j := a.precision, i + 2;
      } else {
        pr, j := ReadDigits(fmt, i + 1);
      }
    }
  }

  /** Parses the directive at `f`. */
  method ReadSpec(fmt: seq<byte>, f: nat, a: Arguments) returns (d: Spec)
    ensures d == ParseSpec(fmt, f, a)
  {
    var fl, i := ReadFlags(fmt, f + 1);
    var fw, j := ReadWidth(fmt, i, a);
    var pr, k := ReadPrecision(fmt, j, a);
    var (wide, c) := ParseSize(fmt, k);
    SpecParts(fmt, f, a, (fl, i), (fw, j), (pr, k), (wide, c));
    d := Spec(fl, fw, pr, wide, At(fmt, c), c + 1);
  }

  lemma SpecParts(fmt: seq<byte>, f: nat, a: Arguments, flags: (Flags, nat), width: (int, nat), precision: (int, nat),
                  size: (bool, nat))
    requires flags == ParseFlags(fmt, f + 1, NO_FLAGS) && width == ParseWidth(fmt, flags.1, a)
    requires precision == ParsePrecision(fmt, width.1, a) && size == ParseSize(fmt, precision.1)
    ensures ParseSpec(fmt, f, a) == Spec(flags.0, width.0, precision.0, size.0, At(fmt, size.1), size.1 + 1)
  {
  }

  method ConvertInteger(signed: bool, fl: Flags, fw: int, pr: int, wide: bool, n: nat) returns (f: Field)
    ensures f == IntegerField(signed, fl, fw, pr, wide, n)
  {
    var (v, negative) := Magnitude(n, signed, wide);
    var body;
    if fl.comma {
      body := DecimalGrouped(v);
    } else {
      body := DecimalPlain(v);
    }
    f := Field(body, SignLead(negative, fl), 3, fl.comma, fl.left, fl.zero, fw, if pr < 0 then 0 else pr);
  }

  method ConvertRadix(radix: nat, table: seq<byte>, group: nat, prefix: seq<byte>, fl: Flags, fw: int, pr: int,
                      wide: bool, n: nat)
    returns (f: Field)
    requires IsRadix(radix) && (table == LOWER || table == UPPER) && (group == 3 || group == 4 || group == 8)
    ensures f == RadixField(radix, table, group, prefix, fl, fw, pr, wide, n)
  {
    Tables();
    var v := if wide then n % WORD else n % HALF;
    var lead := if fl.prefix && v != 0 then prefix else [];
    if v == 0 && pr == 0 {
      return Field([], [], 0, fl.comma, fl.left, fl.zero, fw, pr);
    }
    var st := Style(table, if fl.comma then group else 0);
    ghost var k;
    var body;
    body, k := RadixNumber(v, radix, st, pr);
    RadixBody(body, v, radix, st, pr, k);
    f := Field(body, lead, group, fl.comma, fl.left, fl.zero, fw, pr);
  }

  method ConvertText(fl: Flags, fw: int, pr: int, a: Arguments) returns (f: Field)
    requires TextOk(pr, a)
    ensures f == PlainField(TextOf(a)[..Min(Length(TextOf(a)), TextLimit(pr))], fl, fw)
  {
    var s := TextOf(a);
    if a.isNull { assert s[4] == 0; }
    var l := StrlenLimited(s, a.textAddress, TextLimit(pr));
    f := PlainField(s[..l], fl, fw);
  }

  /** Runs the conversion of a directive. */
  method Convert(d: Spec, a: Arguments) returns (f: Field)
    requires d.conversion == 0x73 ==> TextOk(d.precision, a)
    ensures f == Converted(d, a)
  {
    var (fl, fw, pr, wide, c) := (d.flags, d.width, d.precision, d.wide, d.conversion);
    match c {
      case 0x73 => f := ConvertText(fl, fw, pr, a);
      case 0x75 => f := ConvertInteger(false, fl, fw, pr, wide, a.number);
      case 0x64 => f := ConvertInteger(true, fl, fw, pr, wide, a.number);
      case 0x69 => f := ConvertInteger(true, fl, fw, pr, wide, a.number);
      case 0x62 => f := ConvertRadix(2, LOWER, 8, [0x30, 0x62], fl, fw, pr, wide, a.number);
      case 0x42 => f := ConvertRadix(2, UPPER, 8, [0x30, 0x42], fl, fw, pr, wide, a.number);
      case 0x6f => f := ConvertRadix(8, UPPER, 3, [0x30], fl, fw, pr, wide, a.number);
      case 0x78 => f := ConvertRadix(16, LOWER, 4, [0x30, 0x78], fl, fw, pr, wide, a.number);
      case 0x58 => f := ConvertRadix(16, UPPER, 4, [0x30, 0x58], fl, fw, pr, wide, a.number);
      case 0x70 => f := ConvertRadix(16, LOWER, 4, [0x30, 0x78], fl.(zero := false), fw, 16, true, a.number);
      case _ => f := ConvertOther(d, a);
    }
  }

  /** Conversions that print a given text: characters, floats, which are not built in, and unknown letters. */
  method ConvertOther(d: Spec, a: Arguments) returns (f: Field)
    requires d.conversion !in {0x73, 0x75, 0x64, 0x69, 0x62, 0x42, 0x6f, 0x78, 0x58, 0x70}
    ensures f == Converted(d, a)
  {
    var (fl, fw, c) := (d.flags, d.width, d.conversion);
    if c == 0x63 {
      f := PlainField([a.character], fl, fw);
    } else if c == 0x6e {
      f := PlainField([], NO_FLAGS, 0);
    } else if c in {0x41, 0x61, 0x47, 0x67, 0x45, 0x65, 0x66} {
      f := PlainField(NO_FLOAT, fl, fw);
    } else {
      f := PlainField([c], NO_FLAGS, 0);
    }
  }
}
