/** What a field looks like, character by character: where its leader, its zeros, its text and its spaces are. */
module FormatShape {
  import opened WordScan
  import opened FormatField

  /** The flags of a directive that say how its text is laid out, its width and its precision. */
  datatype Request = Request(left: bool, zero: bool, commas: bool, group: nat, width: int, precision: int)

  predicate PieceAt(s: seq<byte>, at: int, piece: seq<byte>) {
    0 <= at <= at + |piece| <= |s| && forall i :: 0 <= i < |piece| ==> s[at + i] == piece[i]
  }

  predicate AllSpaces(s: seq<byte>, from: int, to: int) {
    0 <= from <= to <= |s| && forall i :: from <= i < to ==> s[i] == 0x20
  }

  /** The characters in front of `to` are those that `pad` gives for their distance from it. */
  predicate PaddedUpTo(s: seq<byte>, from: int, to: int, pad: nat -> byte) {
    0 <= from <= to <= |s| && forall i :: from <= i < to ==> s[i] == pad(to - 1 - i)
  }

  /** Zeros in front of `rest` characters of a number, with commas where they are due if these are asked for. */
  function Zero(rest: nat, commas: bool, group: nat): nat -> byte {
    (d: nat) => if commas && (rest + d) % (group + 1) == group then 0x2c else 0x30
  }

  /**
   Left-justified: the leader first, zeros up to the precision, the text, and then spaces up to the width.
   */
  ghost predicate LeftShape(s: seq<byte>, lead: seq<byte>, body: seq<byte>, q: Request) {
    var digits := Max(q.precision, |body|);
    && |s| == Max(q.width, |lead| + digits)
    && PieceAt(s, 0, lead) && PieceAt(s, |lead| + digits - |body|, body)
    && PaddedUpTo(s, |lead|, |lead| + digits - |body|, Zero(|body|, q.commas, q.group))
    && AllSpaces(s, |lead| + digits, |s|)
  }

  /** Right-justified without the zero flag: spaces, the leader, plain zeros up to the precision, and the text. */
  ghost predicate RightShape(s: seq<byte>, lead: seq<byte>, body: seq<byte>, q: Request) {
    var digits := Max(q.precision, |body|);
    && |s| == Max(q.width, |lead| + digits)
    && AllSpaces(s, 0, |s| - digits - |lead|) && PieceAt(s, |s| - digits - |lead|, lead)
    && PaddedUpTo(s, |s| - digits, |s| - |body|, Zero(|body|, false, q.group)) && PieceAt(s, |s| - |body|, body)
  }

  /** Right-justified with the zero flag: the leader, only zeros, and the text. */
  ghost predicate ZeroShape(s: seq<byte>, lead: seq<byte>, body: seq<byte>, q: Request) {
    var digits := Max(q.precision, |body|);
    && |s| == |lead| + |body| + Max(q.width - |lead| - digits, digits - |body|)
    && PieceAt(s, 0, lead) && PieceAt(s, |s| - |body|, body)
    && PaddedUpTo(s, |lead|, |s| - |body|, Zero(|body|, q.commas, q.group))
  }

  ghost predicate Shaped(s: seq<byte>, lead: seq<byte>, body: seq<byte>, q: Request) {
    if q.left then LeftShape(s, lead, body, q)
    else if q.zero then ZeroShape(s, lead, body, q)
    else RightShape(s, lead, body, q)
  }

  function RequestOf(f: Field): Request {
    Request(f.left, f.zero, f.commas, f.group, f.width, f.precision)
  }

  /** Four pieces in a row. */
  lemma Pieces(s: seq<byte>, a: seq<byte>, b: seq<byte>, c: seq<byte>, d: seq<byte>)
    requires s == a + (b + c + d)
    ensures |s| == |a| + |b| + |c| + |d|
    ensures PieceAt(s, 0, a) && PieceAt(s, |a|, b) && PieceAt(s, |a| + |b|, c) && PieceAt(s, |a| + |b| + |c|, d)
  {
  }

  lemma SpacesPiece(s: seq<byte>, at: nat, spaces: seq<byte>)
    requires PieceAt(s, at, spaces) && Blank(spaces)
    ensures AllSpaces(s, at, at + |spaces|)
  {
    forall i | at <= i < at + |spaces| ensures s[i] == 0x20 {
      assert s[at + (i - at)] == spaces[i - at];
    }
  }

  /** The padding of a field, from right to left. */
  ghost predicate Pads(zeros: seq<byte>, pad: nat -> byte) {
    forall i :: 0 <= i < |zeros| ==> zeros[i] == pad(|zeros| - 1 - i)
  }

  lemma ZerosPad(n: nat, l: nat, group: nat, commas: bool)
    ensures Pads(Zeros(n, n, l, group, commas), Zero(l, commas, group))
  {
    forall i | 0 <= i < n ensures Zeros(n, n, l, group, commas)[i] == Zero(l, commas, group)(n - 1 - i) {
      ZerosAt(n, n, l, group, commas, i);
    }
  }

  lemma PadsPiece(s: seq<byte>, at: nat, zeros: seq<byte>, pad: nat -> byte)
    requires PieceAt(s, at, zeros) && Pads(zeros, pad)
    ensures PaddedUpTo(s, at, at + |zeros|, pad)
  {
    forall i | at <= i < at + |zeros| ensures s[i] == pad(at + |zeros| - 1 - i) {
      assert s[at + (i - at)] == zeros[i - at];
    }
  }

  ghost predicate Blank(spaces: seq<byte>) {
    forall i :: 0 <= i < |spaces| ==> spaces[i] == 0x20
  }

  /** A leader, padding, a text and spaces are where they should be in such a row. */
  lemma LeftRow(s: seq<byte>, lead: seq<byte>, zeros: seq<byte>, body: seq<byte>, spaces: seq<byte>, pad: nat -> byte)
    requires s == lead + (zeros + body + spaces) && Blank(spaces) && Pads(zeros, pad)
    ensures |s| == |lead| + |zeros| + |body| + |spaces| && PieceAt(s, 0, lead) && PieceAt(s, |lead| + |zeros|, body)
    ensures PaddedUpTo(s, |lead|, |lead| + |zeros|, pad) && AllSpaces(s, |lead| + |zeros| + |body|, |s|)
  {
    Pieces(s, lead, zeros, body, spaces);
    PadsPiece(s, |lead|, zeros, pad);
    SpacesPiece(s, |lead| + |zeros| + |body|, spaces);
  }

  lemma RightRow(s: seq<byte>, spaces: seq<byte>, lead: seq<byte>, zeros: seq<byte>, body: seq<byte>, pad: nat -> byte)
    requires s == spaces + (lead + zeros + body) && Blank(spaces) && Pads(zeros, pad)
    ensures |s| == |spaces| + |lead| + |zeros| + |body| && AllSpaces(s, 0, |spaces|) && PieceAt(s, |spaces|, lead)
    ensures PaddedUpTo(s, |spaces| + |lead|, |spaces| + |lead| + |zeros|, pad)
    ensures PieceAt(s, |spaces| + |lead| + |zeros|, body)
  {
    Pieces(s, spaces, lead, zeros, body);
    SpacesPiece(s, 0, spaces);
    PadsPiece(s, |spaces| + |lead|, zeros, pad);
  }

  lemma Moved(lead: seq<byte>, zeros: seq<byte>, body: seq<byte>, spaces: seq<byte>)
    ensures lead + zeros + body + spaces == lead + (zeros + body + spaces)
  {
  }

  lemma LeftField(f: Field)
    requires f.left
    ensures LeftShape(FieldText(f), f.lead, f.body, RequestOf(f))
  {
    var p := PaddingOf(f);
    var zeros, spaces := Zeros(p.zeros, p.zeros, |f.body|, f.group, p.commas), Repeat(SPACE, p.spaces);
    ZerosPad(p.zeros, |f.body|, f.group, p.commas);
    Moved(f.lead, zeros, f.body, spaces);
    LeftRow(FieldText(f), f.lead, zeros, f.body, spaces, Zero(|f.body|, p.commas, f.group));
  }

  lemma ZeroField(f: Field)
    requires !f.left && f.zero
    ensures ZeroShape(FieldText(f), f.lead, f.body, RequestOf(f))
  {
    var p := PaddingOf(f);
    var zeros, spaces := Zeros(p.zeros, p.zeros, |f.body|, f.group, p.commas), Repeat(SPACE, p.spaces);
    ZerosPad(p.zeros, |f.body|, f.group, p.commas);
    RightRow(FieldText(f), spaces, f.lead, zeros, f.body, Zero(|f.body|, p.commas, f.group));
  }

  lemma RightField(f: Field)
    requires !f.left && !f.zero
    ensures RightShape(FieldText(f), f.lead, f.body, RequestOf(f))
  {
    var p := PaddingOf(f);
    var zeros, spaces := Zeros(p.zeros, p.zeros, |f.body|, f.group, p.commas), Repeat(SPACE, p.spaces);
    ZerosPad(p.zeros, |f.body|, f.group, p.commas);
    RightRow(FieldText(f), spaces, f.lead, zeros, f.body, Zero(|f.body|, p.commas, f.group));
  }

  /** Every field, whatever its flags, width and precision, has the shape that these ask for. */
  lemma FieldShaped(f: Field)
    ensures Shaped(FieldText(f), f.lead, f.body, RequestOf(f))
  {
    if f.left { LeftField(f); } else if f.zero { ZeroField(f); } else { RightField(f); }
  }

  lemma SamePiece(s: seq<byte>, t: seq<byte>, at: nat, piece: seq<byte>, i: nat)
    requires |s| == |t| && PieceAt(s, at, piece) && PieceAt(t, at, piece) && at <= i < at + |piece|
    ensures s[i] == t[i]
  {
    assert s[at + (i - at)] == piece[i - at];
  }

  /** The shape leaves nothing open: there is one text of it. */
  lemma ShapedOnce(s: seq<byte>, t: seq<byte>, lead: seq<byte>, body: seq<byte>, q: Request)
    requires Shaped(s, lead, body, q) && Shaped(t, lead, body, q)
    ensures s == t
  {
    var digits := Max(q.precision, |body|);
    var l := if q.left || q.zero then 0 else |s| - digits - |lead|;
    var b := if q.left then |lead| + digits - |body| else |s| - |body|;
    forall i: nat | i < |s| ensures s[i] == t[i] {
      SameAt(s, t, l, lead, b, body, i, q);
    }
  }

  lemma SameAt(s: seq<byte>, t: seq<byte>, l: int, lead: seq<byte>, b: int, body: seq<byte>, i: nat, q: Request)
    requires Shaped(s, lead, body, q) && Shaped(t, lead, body, q) && i < |s|
    requires var digits := Max(q.precision, |body|);
      && l == (if q.left || q.zero then 0 else |s| - digits - |lead|)
      && b == if q.left then |lead| + digits - |body| else |s| - |body|
    ensures |s| == |t| && s[i] == t[i]
  {
    if l <= i < l + |lead| {
      SamePiece(s, t, l, lead, i);
    } else if b <= i < b + |body| {
      SamePiece(s, t, b, body, i);
    }
  }
}
