/** Fields: the converted text of a directive with its leader, zero padding and spaces. */
module FormatField {
  import opened WordScan
  import opened FormatNumber

  const SPACE: byte := 0x20
  const ZERO: byte := 0x30

  /**
   A directive after conversion: the text, the sign or radix prefix, the comma group size that goes
   with the text, and the flags, width and precision of the directive.
   */
  datatype Field = Field(body: seq<byte>, lead: seq<byte>, group: nat, commas: bool, left: bool, zero: bool,
                         width: int, precision: int)

  predicate ProperField(f: Field) {
    f.group == 0 || f.group == 3 || f.group == 4 || f.group == 8
  }

  function Max(a: int, b: int): int {
    if a > b then a else b
  }

  /** How a field is padded: spaces, zeros, and whether the zeros are grouped. */
  datatype Padding = Padding(spaces: nat, zeros: nat, commas: bool)

  function PaddingOf(f: Field): Padding {
    var digits := Max(f.precision, |f.body|);
    var n := digits + |f.lead|;
    var spaces := Max(f.width, n) - n;
    var zeros := digits - |f.body|;
    if f.left then Padding(spaces, zeros, f.commas)
    else if f.zero then Padding(0, Max(spaces, zeros), f.commas)
    else Padding(spaces, zeros, false)
  }

  function Repeat(c: byte, n: nat): (s: seq<byte>)
    ensures |s| == n && forall i :: 0 <= i < n ==> s[i] == c
  {
    if n == 0 then [] else Repeat(c, n - 1) + [c]
  }

  /** The character of the zero padding at the given distance from the right end of the text. */
  function PadCharacter(distance: nat, group: nat, commas: bool): byte {
    if commas && CommaPlace(distance, group) then COMMA else ZERO
  }

  /** The first `k` of `zeros` padding characters in front of a text of length `l`. */
  function Zeros(k: nat, zeros: nat, l: nat, group: nat, commas: bool): (s: seq<byte>)
    requires k <= zeros
    ensures |s| == k
  {
    if k == 0 then [] else Zeros(k - 1, zeros, l, group, commas) + [PadCharacter(zeros - k + l, group, commas)]
  }

  lemma {:induction false} ZerosAt(k: nat, zeros: nat, l: nat, group: nat, commas: bool, i: nat)
    requires i < k <= zeros
    ensures Zeros(k, zeros, l, group, commas)[i] == PadCharacter(zeros - 1 - i + l, group, commas)
  {
    if i < k - 1 { ZerosAt(k - 1, zeros, l, group, commas, i); }
  }

  function FieldText(f: Field): seq<byte> {
    var p := PaddingOf(f);
    var number := f.lead + Zeros(p.zeros, p.zeros, |f.body|, f.group, p.commas) + f.body;
    if f.left then number + Repeat(SPACE, p.spaces) else Repeat(SPACE, p.spaces) + number
  }

  /** The padded text without its leader. */
  function Padded(f: Field): seq<byte> {
    var p := PaddingOf(f);
    Zeros(p.zeros, p.zeros, |f.body|, f.group, p.commas) + f.body
  }

  /** A field whose text is a grouped number. */
  ghost predicate Grouped(f: Field, d: seq<nat>, st: Style) {
    && Proper(st) && st.group > 0 && f.group == st.group && (forall j :: 0 <= j < |d| ==> d[j] < 16)
    && f.body == Spelled(d, st)
  }

  /** Every character of the padded text is a comma exactly if its distance from the right end calls for one. */
  ghost predicate CommasRight(f: Field) {
    forall i :: 0 <= i < |Padded(f)| ==> CommaAt(Padded(f), f.group, i)
  }

  /** No comma is due among the zeros that the precision asks for. */
  ghost predicate NoCommaDue(f: Field) {
    forall k :: |f.body| <= k < f.precision ==> !CommaPlace(k, f.group)
  }

  lemma BodyCommas(f: Field, d: seq<nat>, st: Style, i: nat)
    requires Grouped(f, d, st) && PaddingOf(f).zeros <= i < |Padded(f)|
    ensures CommaAt(Padded(f), f.group, i)
  {
    var z := PaddingOf(f).zeros;
    CommaPlaces(d, st, i - z);
    assert Padded(f)[i] == f.body[i - z];
    assert |Padded(f)| - 1 - i == |f.body| - 1 - (i - z);
  }

  lemma ZeroCharacter(f: Field, i: nat)
    requires i < PaddingOf(f).zeros
    ensures i < |Padded(f)|
    ensures Padded(f)[i] == PadCharacter(|Padded(f)| - 1 - i, f.group, PaddingOf(f).commas)
  {
    var p := PaddingOf(f);
    ZerosAt(p.zeros, p.zeros, |f.body|, f.group, p.commas, i);
  }

  /** Padding that keeps the comma flag has its commas in the right places. */
  lemma GroupedZeros(f: Field, i: nat)
    requires PaddingOf(f).commas && i < PaddingOf(f).zeros
    ensures i < |Padded(f)| && CommaAt(Padded(f), f.group, i)
  {
    ZeroCharacter(f, i);
  }

  /** Padding that has lost it has none. */
  lemma UngroupedZeros(f: Field, i: nat)
    requires !PaddingOf(f).commas && i < PaddingOf(f).zeros
    ensures i < |Padded(f)| && (CommaAt(Padded(f), f.group, i) <==> !CommaPlace(|Padded(f)| - 1 - i, f.group))
  {
    ZeroCharacter(f, i);
  }

  /** A right-justified field without the zero flag is padded with plain zeros up to its precision. */
  lemma PrecisionZeros(f: Field)
    requires !f.left && !f.zero
    ensures !PaddingOf(f).commas && PaddingOf(f).zeros == Max(f.precision, |f.body|) - |f.body|
    ensures |Padded(f)| == Max(f.precision, |f.body|)
  {
  }

  lemma PlainCommas(f: Field, d: seq<nat>, st: Style)
    requires Grouped(f, d, st) && !f.left && !f.zero
    ensures CommasRight(f) <==> NoCommaDue(f)
  {
    PrecisionZeros(f);
    var n := |Padded(f)|;
    if CommasRight(f) {
      forall k | |f.body| <= k < f.precision ensures !CommaPlace(k, f.group) {
        UngroupedZeros(f, n - 1 - k);
        assert CommaAt(Padded(f), f.group, n - 1 - k);
      }
    }
    if NoCommaDue(f) {
      forall i | 0 <= i < n ensures CommaAt(Padded(f), f.group, i) {
        if i < PaddingOf(f).zeros {
          UngroupedZeros(f, i);
        } else {
          BodyCommas(f, d, st, i);
        }
      }
    }
  }

  /**
   With the comma flag, commas stand in padding and number alike exactly where the distance from the
   right end calls for them, if and only if the field is left-justified, has the zero flag, or has no
   comma due among the zeros of its precision: a right-justified field without the zero flag loses the
   comma flag before these zeros are written.
   */
  lemma PaddedCommas(f: Field, d: seq<nat>, st: Style)
    requires Grouped(f, d, st) && f.commas
    ensures CommasRight(f) <==> f.left || f.zero || NoCommaDue(f)
  {
    if f.left || f.zero {
      forall i | 0 <= i < |Padded(f)| ensures CommaAt(Padded(f), f.group, i) {
        if i < PaddingOf(f).zeros {
          GroupedZeros(f, i);
        } else {
          BodyCommas(f, d, st, i);
        }
      }
    } else {
      PlainCommas(f, d, st);
    }
  }

  /** The digit 7 with precision 6 and the comma flag: a zero where a comma is due. */
  lemma SevenPadded()
    ensures var f := Field([55], [], 3, true, false, false, 0, 6);
      FieldText(f) == [48, 48, 48, 48, 48, 55] && |Padded(f)| == 6 && !CommaAt(Padded(f), 3, 2)
  {
    var f := Field([55], [], 3, true, false, false, 0, 6);
    PrecisionZeros(f);
    forall i: nat | i < 5 ensures Padded(f)[i] == 48 {
      ZeroCharacter(f, i);
    }
    assert Padded(f)[5] == 55;
    assert FieldText(f) == Padded(f);
  }

  /** The zeros of the width and of the precision get in each other's way. */
  predicate BothPadded(f: Field) {
    !f.left && f.zero && f.precision > |f.body| && f.width > |f.lead| + f.precision
  }

  /**
   A field is as long as its width and its precision ask for, except exactly when it is right-justified
   with the zero flag and both call for zeros: then it gets the larger number of zeros and not the sum.
   */
  lemma FieldLength(f: Field)
    ensures |FieldText(f)| == Max(f.width, |f.lead| + Max(f.precision, |f.body|)) <==> !BothPadded(f)
    ensures BothPadded(f) ==> |FieldText(f)| < f.width
  {
  }

  /** The digit 7 with width 6, precision 3 and the zero flag: four characters. */
  lemma SevenShort()
    ensures FieldText(Field([55], [], 3, false, false, true, 6, 3)) == [48, 48, 48, 55]
  {
    var f := Field([55], [], 3, false, false, true, 6, 3);
    assert PaddingOf(f).zeros == 3 && PaddingOf(f).spaces == 0 && !PaddingOf(f).commas;
    forall i: nat | i < 3 ensures Padded(f)[i] == 48 {
      ZeroCharacter(f, i);
    }
    assert Padded(f)[3] == 55;
    assert FieldText(f) == Padded(f);
  }

  /** A directive without width and precision prints the leader and the converted text as they are. */
  lemma DefaultField(f: Field)
    requires f.width <= |f.lead| + |f.body| && f.precision <= |f.body|
    ensures FieldText(f) == f.lead + f.body
  {
    assert PaddingOf(f).spaces == 0 && PaddingOf(f).zeros == 0;
  }
}
