/**
 Chunked output. Characters are collected in a buffer, and whenever it could overflow a callback
 takes the buffer and returns another one. Without a callback the buffer never overflows.
 */
module FormatOutput {
  import opened WordScan
  import opened FormatNumber
  import opened FormatField
  import opened FormatDirective

  function Concat(chunks: seq<seq<byte>>): seq<byte> {
    if chunks == [] then [] else Concat(chunks[..|chunks| - 1]) + chunks[|chunks| - 1]
  }

  lemma ConcatMore(chunks: seq<seq<byte>>, chunk: seq<byte>)
    ensures Concat(chunks + [chunk]) == Concat(chunks) + chunk
  {
    assert (chunks + [chunk])[..|chunks|] == chunks;
  }

  predicate AllShort(chunks: seq<seq<byte>>, min: nat) {
    forall i :: 0 <= i < |chunks| ==> |chunks[i]| <= min
  }

  /** What has been written so far. */
  function Written(chunks: seq<seq<byte>>, pending: seq<byte>): seq<byte> {
    Concat(chunks) + pending
  }

  lemma WrittenMore(chunks: seq<seq<byte>>, pending: seq<byte>, s: seq<byte>)
    ensures Written(chunks, pending + s) == Written(chunks, pending) + s
  {
  }

  lemma Appended(text: seq<byte>, a: seq<byte>, b: seq<byte>)
    ensures text + a + b == text + (a + b)
  {
  }

  lemma RepeatMore(c: byte, m: nat, n: nat)
    ensures Repeat(c, m) + Repeat(c, n) == Repeat(c, m + n)
  {
  }

  lemma SliceMore(s: seq<byte>, a: nat, b: nat, c: nat)
    requires a <= b <= c <= |s|
    ensures s[a..b] + s[b..c] == s[a..c]
  {
  }

  class Output {
    const min: nat // STB_SPRINTF_MIN
    const callback: bool
    const address: nat -> nat // where each buffer begins
    var chunks: seq<seq<byte>> // what the callback was given
    var pending: seq<byte> // what the current buffer holds
    var tlen: nat

    constructor (min: nat, callback: bool, address: nat -> nat)
      requires min >= 1
      ensures Valid() && Text() == [] && this.min == min && this.callback == callback && chunks == [] && pending == []
    {
      this.min, this.callback, this.address := min, callback, address;
      chunks, pending, tlen := [], [], 0;
    }

    ghost predicate Valid()
      reads this
    {
      && min >= 1 && tlen == |Concat(chunks)|
      && (if callback then |pending| <= min && AllShort(chunks, min) else chunks == [])
    }

    ghost function Text(): seq<byte>
      reads this
    {
      Written(chunks, pending)
    }

    function Aligned(): bool
      reads this
    {
      (address(|chunks|) + |pending|) % 4 == 0
    }

    /** The buffer has room for `n` more characters. */
    predicate Room(n: nat)
      reads this
    {
      callback ==> |pending| + n <= min
    }

    /** Hands the buffer over if `bytes` more could fill it. */
    method Check(bytes: nat)
      requires Valid()
      modifies this`chunks, this`pending, this`tlen
      ensures Valid() && Text() == old(Text())
      ensures callback && |old(pending)| + bytes >= min ==> pending == []
      ensures !callback || |old(pending)| + bytes < min ==> pending == old(pending)
    {
      if callback && |pending| + bytes >= min {
        tlen := tlen + |pending|;
        ConcatMore(chunks, pending);
        chunks, pending := chunks + [pending], [];
      }
    }

    method Put(c: byte)
      requires Valid() && Room(1)
      modifies this`pending
      ensures Valid() && Text() == old(Text()) + [c] && pending == old(pending) + [c]
    {
      WrittenMore(chunks, pending, [c]);
      pending := pending + [c];
    }

    method PutWord(w: seq<byte>)
      requires Valid() && |w| == 4 && Room(4)
      modifies this`pending
      ensures Valid() && Text() == old(Text()) + w && pending == old(pending) + w
    {
      WrittenMore(chunks, pending, w);
      pending := pending + w;
    }

    /** How many of `v` characters the buffer takes. */
    function Clamped(v: nat): (cl: nat)
      requires Valid()
      reads this
      ensures cl <= v && Room(cl) && (cl < v ==> callback && |pending| + cl == min)
    {
      if callback && v > min - |pending| then min - |pending| else v
    }

    /** Fills the buffer with `n` times the same character, by words where it is aligned. */
    method FillBuffer(c: byte, n: nat)
      requires Valid() && Room(n)
      modifies this`pending
      ensures Valid() && pending == old(pending) + Repeat(c, n) && Text() == old(Text()) + Repeat(c, n)
    {
      var i := n;
      ghost var start := pending;
      while i > 0 && !Aligned()
        invariant 0 <= i <= n && Valid() && pending == start + Repeat(c, n - i)
      {
        Put(c);
        i := i - 1;
      }
      while i >= 4
        invariant 0 <= i <= n && Valid() && pending == start + Repeat(c, n - i)
      {
        RepeatMore(c, n - i, 4);
        PutWord([c, c, c, c]);
        assert [c, c, c, c] == Repeat(c, 4);
        i := i - 4;
      }
      while i > 0
        invariant 0 <= i <= n && Valid() && pending == start + Repeat(c, n - i)
      {
        Put(c);
        i := i - 1;
      }
      WrittenMore(chunks, start, Repeat(c, n));
    }

    /** Writes `n` times the same character, a buffer at a time. */
    method Fill(c: byte, n: nat)
      requires Valid()
      modifies this`chunks, this`pending, this`tlen
      ensures Valid() && Text() == old(Text()) + Repeat(c, n)
    {
      var left := n;
      ghost var start := Text();
      while left > 0
        invariant 0 <= left <= n && Valid() && Text() == start + Repeat(c, n - left)
        decreases left, |pending|
      {
        var i := Clamped(left);
        RepeatMore(c, n - left, i);
        Appended(start, Repeat(c, n - left), Repeat(c, i));
        left := left - i;
        FillBuffer(c, i);
        Check(1);
      }
    }

    /** Copies `s[from..to]` into the buffer, by words and then by characters. */
    method CopyBuffer(s: seq<byte>, from: nat, to: nat)
      requires Valid() && from <= to <= |s| && Room(to - from)
      modifies this`pending
      ensures Valid() && pending == old(pending) + s[from..to] && Text() == old(Text()) + s[from..to]
    {
      var i := from;
      ghost var start := pending;
      while to - i >= 4
        invariant from <= i <= to && Valid() && pending == start + s[from..i]
      {
        SliceMore(s, from, i, i + 4);
        PutWord(s[i..i + 4]);
        i := i + 4;
      }
      while i < to
        invariant from <= i <= to && Valid() && pending == start + s[from..i]
      {
        SliceMore(s, from, i, i + 1);
        assert s[i..i + 1] == [s[i]];
        Put(s[i]);
        i := i + 1;
      }
      WrittenMore(chunks, start, s[from..to]);
    }

    /** Copies a text, a buffer at a time. */
    method Copy(s: seq<byte>)
      requires Valid()
      modifies this`chunks, this`pending, this`tlen
      ensures Valid() && Text() == old(Text()) + s
    {
      var k := 0;
      ghost var start := Text();
      while k < |s|
        invariant 0 <= k <= |s| && Valid() && Text() == start + s[..k]
        decreases |s| - k, |pending|
      {
        var i := Clamped(|s| - k);
        SliceMore(s, 0, k, k + i);
        Appended(start, s[..k], s[k..k + i]);
        CopyBuffer(s, k, k + i);
        k := k + i;
        Check(1);
      }
      assert s[..k] == s;
    }

    /** Writes the zero padding from character `from` to `to` into the buffer, with commas. */
    method GroupedBuffer(from: nat, to: nat, cs0: nat, zeros: nat, l: nat, group: nat, ghost base: seq<byte>)
      returns (cs: nat)
      requires Valid() && from <= to <= zeros && Room(to - from) && Counting(cs0, from, zeros, l, group)
      requires Text() == base + Zeros(from, zeros, l, group, true)
      modifies this`pending
      ensures Valid() && Counting(cs, to, zeros, l, group) && |pending| == |old(pending)| + (to - from)
      ensures Text() == base + Zeros(to, zeros, l, group, true)
    {
      cs := cs0;
      var i := from;
      while i < to
        invariant from <= i <= to && Valid() && Counting(cs, i, zeros, l, group)
        invariant |pending| == |old(pending)| + (i - from)
        invariant Text() == base + Zeros(i, zeros, l, group, true)
      {
        cs := GroupedPut(i, cs, zeros, l, group, base);
        i := i + 1;
      }
    }

    method GroupedPut(i: nat, cs0: nat, zeros: nat, l: nat, group: nat, ghost base: seq<byte>) returns (cs: nat)
      requires Valid() && i < zeros && Room(1) && Counting(cs0, i, zeros, l, group)
      requires Text() == base + Zeros(i, zeros, l, group, true)
      modifies this`pending
      ensures Valid() && Counting(cs, i + 1, zeros, l, group) && |pending| == |old(pending)| + 1
      ensures Text() == base + Zeros(i + 1, zeros, l, group, true)
    {
      CountStep(cs0, i, zeros, l, group);
      Appended(base, Zeros(i, zeros, l, group, true), [PadCharacter(zeros - 1 - i + l, group, true)]);
      if cs0 == group {
        cs := 0;
        Put(COMMA);
      } else {
        cs := cs0 + 1;
        Put(ZERO);
      }
    }

    /** Writes the zero padding in front of a text of length `l`, a buffer at a time. */
    method CopyZeros(zeros: nat, l: nat, group: nat, commas: bool)
      requires Valid() && (group == 0 || group == 3 || group == 4 || group == 8)
      modifies this`chunks, this`pending, this`tlen
      ensures Valid() && Text() == old(Text()) + Zeros(zeros, zeros, l, group, commas)
    {
      if commas {
        CopyGroupedZeros(zeros, l, group);
      } else {
        PlainZeros(zeros, zeros, l, group);
        Fill(ZERO, zeros);
      }
    }

    /** Zeros with commas among them; `cs` counts up to the next comma. */
    method CopyGroupedZeros(zeros: nat, l: nat, group: nat)
      requires Valid() && (group == 0 || group == 3 || group == 4 || group == 8)
      modifies this`chunks, this`pending, this`tlen
      ensures Valid() && Text() == old(Text()) + Zeros(zeros, zeros, l, group, true)
    {
      var cs := FirstCount(zeros, l, group);
      var k := 0;
      ghost var base := Text();
      while k < zeros
        invariant 0 <= k <= zeros && Valid() && Counting(cs, k, zeros, l, group)
        invariant Text() == base + Zeros(k, zeros, l, group, true)
        decreases zeros - k, |pending|
      {
        var i := Clamped(zeros - k);
        cs := GroupedBuffer(k, k + i, cs, zeros, l, group, base);
        k := k + i;
        Check(1);
      }
    }

    /** Writes a field. */
    method CopyField(f: Field)
      requires Valid() && ProperField(f)
      modifies this`chunks, this`pending, this`tlen
      ensures Valid() && Text() == old(Text()) + FieldText(f)
    {
      var fw, pr, commas := Layout(f);
      ghost var base := Text();
      CopyFront(f, fw, pr, commas);
      Appended(base, Front(f, fw, pr, commas), f.body);
      Copy(f.body);
      if f.left {
        Appended(base, Front(f, fw, pr, commas) + f.body, Repeat(SPACE, fw));
        Fill(SPACE, fw);
      }
      FieldParts(f, Padding(fw, pr, commas));
    }

    /** Writes what comes before the text: spaces, leader and zeros. */
    method CopyFront(f: Field, fw: nat, pr: nat, commas: bool)
      requires Valid() && ProperField(f)
      modifies this`chunks, this`pending, this`tlen
      ensures Valid() && Text() == old(Text()) + Front(f, fw, pr, commas)
    {
      var lead := f.lead;
      ghost var base := Text();
      ghost var spaces := if f.left then [] else Repeat(SPACE, fw);
      if fw + pr != 0 {
        if !f.left {
          Fill(SPACE, fw);
        }
        assert Text() == base + spaces;
        Appended(base, spaces, lead);
        Copy(lead);
        lead := [];
        Appended(base, spaces + f.lead, Zeros(pr, pr, |f.body|, f.group, commas));
        CopyZeros(pr, |f.body|, f.group, commas);
      }
      Copy(lead);
      FrontParts(base, f, fw, pr, commas);
    }

    /**
     Copies format text up to the next percent sign or the terminator. Aligned words without either
     are copied whole if the buffer has room for them.
     */
    method CopyLiteral(fmt: seq<byte>, fmtAddress: nat, f0: nat) returns (f: nat)
      requires Valid() && Terminated(fmt, fmtAddress) && f0 <= Length(fmt)
      modifies this`chunks, this`pending, this`tlen
      ensures Valid() && f == Stop(fmt, f0) && f0 <= f <= Length(fmt) && Text() == old(Text()) + fmt[f0..f]
    {
      f := f0;
      ghost var start := Text();
      var bytewise := !AlignedAt(fmtAddress, f);
      while !bytewise || !(fmt[f] == PERCENT || fmt[f] == 0)
        invariant Valid() && Literal(fmt, fmtAddress, f0, f, bytewise) && Text() == start + fmt[f0..f]
        decreases |fmt| - f, if bytewise then 0 else 1
      {
        f, bytewise := LiteralStep(fmt, fmtAddress, f0, f, bytewise, start);
      }
      StopHere(fmt, f);
    }

    method LiteralStep(fmt: seq<byte>, fmtAddress: nat, ghost f0: nat, at: nat, bytewise0: bool, ghost start: seq<byte>)
      returns (f: nat, bytewise: bool)
      requires Valid() && Terminated(fmt, fmtAddress) && Literal(fmt, fmtAddress, f0, at, bytewise0)
      requires Text() == start + fmt[f0..at]
      requires !bytewise0 || !(fmt[at] == PERCENT || fmt[at] == 0)
      modifies this`chunks, this`pending, this`tlen
      ensures Valid() && Literal(fmt, fmtAddress, f0, f, bytewise) && Text() == start + fmt[f0..f]
      ensures f > at || (f == at && bytewise && !bytewise0)
    {
      f, bytewise := at, bytewise0;
      if bytewise {
        CopyOne(fmt, f0, f, start);
        f := f + 1;
        bytewise := !AlignedAt(fmtAddress, f);
      } else {
        var copied := TryWord(fmt, fmtAddress, f0, f, start);
        if copied {
          f := f + 4;
        } else {
          bytewise := true;
        }
      }
    }

    /** Copies the aligned word at `f` if nothing speaks against it. */
    method TryWord(fmt: seq<byte>, fmtAddress: nat, ghost f0: nat, f: nat, ghost start: seq<byte>)
      returns (copied: bool)
      requires Valid() && Terminated(fmt, fmtAddress) && f0 <= f <= Length(fmt) && AlignedAt(fmtAddress, f)
      requires Text() == start + fmt[f0..f]
      modifies this`pending
      ensures Valid() && (!copied ==> Text() == old(Text()))
      ensures copied ==> f + 4 <= Length(fmt) && AlignedAt(fmtAddress, f + 4) && Stop(fmt, f + 4) == Stop(fmt, f)
      ensures copied ==> Text() == start + fmt[f0..f + 4]
    {
      WordInside(fmt, fmtAddress, f);
      var v := WordAt(fmt, f);
      copied := !HasPercent(v) && !HasZero(v) && !(callback && min - |pending| < 4);
      if copied {
        CopyWord(fmt, f0, f, start);
      }
    }

    method CopyOne(fmt: seq<byte>, ghost f0: nat, f: nat, ghost start: seq<byte>)
      requires Valid() && f0 <= f < |fmt| && fmt[f] != PERCENT && fmt[f] != 0 && Text() == start + fmt[f0..f]
      modifies this`chunks, this`pending, this`tlen
      ensures Valid() && Text() == start + fmt[f0..f + 1] && Stop(fmt, f + 1) == Stop(fmt, f)
    {
      Check(1);
      SliceMore(fmt, f0, f, f + 1);
      assert fmt[f..f + 1] == [fmt[f]];
      Appended(start, fmt[f0..f], [fmt[f]]);
      Put(fmt[f]);
    }

    method CopyWord(fmt: seq<byte>, ghost f0: nat, f: nat, ghost start: seq<byte>)
      requires Valid() && Room(4) && f0 <= f && f + 4 <= |fmt| && Text() == start + fmt[f0..f]
      requires !HasPercent(WordAt(fmt, f)) && !HasZero(WordAt(fmt, f)) && f <= Length(fmt)
      modifies this`pending
      ensures Valid() && Text() == start + fmt[f0..f + 4] && Stop(fmt, f + 4) == Stop(fmt, f) && f + 4 <= Length(fmt)
    {
      SkipWord(fmt, f);
      SliceMore(fmt, f0, f, f + 4);
      Appended(start, fmt[f0..f], fmt[f..f + 4]);
      PutWord(fmt[f..f + 4]);
    }

    /** Hands over what is left in the buffer, if anything. */
    method Flush()
      requires Valid()
      modifies this`chunks, this`pending, this`tlen
      ensures Valid() && Text() == old(Text()) && (callback ==> pending == [])
    {
      Check(min - 1);
    }

    /** Parses, converts and writes the directive at `f`. */
    method CopyDirective(fmt: seq<byte>, f: nat, a: Arguments) returns (next: nat)
      requires Valid() && ProperField(DirectiveAt(fmt, f, a).field) && ArgumentsOk(fmt, f, a)
      modifies this`chunks, this`pending, this`tlen
      ensures Valid() && Text() == old(Text()) + FieldText(DirectiveAt(fmt, f, a).field)
      ensures next == DirectiveAt(fmt, f, a).next
    {
      var d := ReadSpec(fmt, f, a);
      var field := Convert(d, a);
      CopyField(field);
      return d.next;
    }

    method NextDirective(fmt: seq<byte>, f: nat, args: nat -> Arguments, ghost directive: nat -> Directive)
      returns (next: nat)
      requires Valid() && ProperField(directive(f).field) && Agrees(directive, fmt, args)
      modifies this`chunks, this`pending, this`tlen
      ensures Valid() && Text() == old(Text()) + FieldText(directive(f).field) && next == directive(f).next
    {
      assert directive(f) == DirectiveAt(fmt, f, args(f)) && ArgumentsOk(fmt, f, args(f));
      next := CopyDirective(fmt, f, args(f));
    }

    /** The format has been printed up to the stop at `f`. */
    ghost predicate PrintedUpTo(fmt: seq<byte>, f: nat, directive: nat -> Directive)
      reads this
    {
      && f <= Length(fmt) < |fmt| && Valid() && (fmt[f] == 0 || fmt[f] == PERCENT)
      && (f < Length(fmt) ==> Goes(fmt, f, directive))
      && FormatText(fmt, 0, directive) == Text() + Remaining(fmt, f, directive)
    }

    /** The text of the format up to the first stop. */
    method BeginFormat(fmt: seq<byte>, fmtAddress: nat, ghost directive: nat -> Directive) returns (f: nat)
      requires Valid() && Text() == [] && Terminated(fmt, fmtAddress) && Inside(fmt, 0, directive)
      modifies this`chunks, this`pending, this`tlen
      ensures PrintedUpTo(fmt, f, directive)
    {
      f := CopyLiteral(fmt, fmtAddress, 0);
      FormatStep(fmt, 0, directive);
    }

    /** A directive, and the text behind it up to the next stop. */
    method AdvanceFormat(fmt: seq<byte>, fmtAddress: nat, f0: nat, args: nat -> Arguments,
                         ghost directive: nat -> Directive) returns (f: nat)
      requires Terminated(fmt, fmtAddress) && Agrees(directive, fmt, args) && PrintedUpTo(fmt, f0, directive)
      requires f0 < Length(fmt)
      modifies this`chunks, this`pending, this`tlen
      ensures PrintedUpTo(fmt, f, directive) && f > f0
    {
      ghost var before, field := Text(), FieldText(directive(f0).field);
      var next := NextDirective(fmt, f0, args, directive);
      f := CopyLiteral(fmt, fmtAddress, next);
      FormatStep(fmt, next, directive);
      Reassociate(before, field, fmt[next..f], Remaining(fmt, f, directive));
    }

    /** The last chunk, and the count of all characters. */
    method Finish() returns (total: nat)
      requires Valid()
      modifies this`chunks, this`pending, this`tlen
      ensures Valid() && Text() == old(Text()) && total == |Text()|
      ensures callback ==> pending == [] && Concat(chunks) == Text()
      ensures !callback ==> pending == Text()
    {
      if callback {
        Flush();
      }
      total := tlen + |pending|;
      assert Concat(chunks) + [] == Concat(chunks) && [] + pending == pending;
    }

    /**
     Formats. For every callback, buffer size and alignment the text is the same, and with a callback
     all of it has been handed over in chunks that fit the buffer. `directive` names what the
     directives of the format come to with the given arguments.
     */
    method VSPrintfCb(fmt: seq<byte>, fmtAddress: nat, args: nat -> Arguments, ghost directive: nat -> Directive)
      returns (total: nat)
      requires Valid() && Text() == [] && Terminated(fmt, fmtAddress)
      requires Agrees(directive, fmt, args) && Inside(fmt, 0, directive)
      modifies this
      ensures Valid() && Text() == FormatText(fmt, 0, directive) && total == |FormatText(fmt, 0, directive)|
      ensures callback ==> pending == [] && Concat(chunks) == FormatText(fmt, 0, directive)
      ensures !callback ==> pending == FormatText(fmt, 0, directive)
    {
      var f := BeginFormat(fmt, fmtAddress, directive);
      while fmt[f] != 0
        invariant PrintedUpTo(fmt, f, directive)
        decreases Length(fmt) - f
      {
        f := AdvanceFormat(fmt, fmtAddress, f, args, directive);
      }
      assert Text() + [] == Text();
      total := Finish();
    }
  }

  /** Format text from `f0` to `f` holds no percent sign and no terminator; words are read at aligned places only. */
  ghost predicate Literal(fmt: seq<byte>, fmtAddress: nat, f0: nat, f: nat, bytewise: bool) {
    f0 <= f <= Length(fmt) && Stop(fmt, f) == Stop(fmt, f0) && (!bytewise ==> AlignedAt(fmtAddress, f))
  }

  /** A string argument that is printed can be read. */
  predicate ArgumentsOk(fmt: seq<byte>, f: nat, a: Arguments) {
    var d := ParseSpec(fmt, f, a);
    d.conversion == 0x73 ==> TextOk(d.precision, a)
  }

  /** `directive` is what the directives of the format come to with the given arguments. */
  ghost predicate Agrees(directive: nat -> Directive, fmt: seq<byte>, args: nat -> Arguments) {
    forall f: nat {:trigger DirectiveAt(fmt, f, args(f))} ::
      directive(f) == DirectiveAt(fmt, f, args(f)) && ArgumentsOk(fmt, f, args(f))
  }

  /** Memory that holds the format up to the next word boundary behind its terminator. */
  predicate Terminated(fmt: seq<byte>, fmtAddress: nat) {
    (fmtAddress + |fmt|) % 4 == 0 && Length(fmt) < |fmt|
  }

  /** The next percent sign or terminator. */
  function Stop(fmt: seq<byte>, f: nat): (g: nat)
    requires f <= |fmt|
    ensures f <= g <= |fmt| && (g < |fmt| ==> fmt[g] == 0 || fmt[g] == PERCENT)
    decreases |fmt| - f
  {
    if f == |fmt| || fmt[f] == 0 || fmt[f] == PERCENT then f else Stop(fmt, f + 1)
  }

  lemma StopHere(fmt: seq<byte>, f: nat)
    requires f < |fmt| && (fmt[f] == 0 || fmt[f] == PERCENT)
    ensures Stop(fmt, f) == f
  {
  }

  predicate AlignedAt(address: nat, f: nat) {
    (address + f) % 4 == 0
  }

  lemma WordFits(address: nat, f: nat, n: nat)
    requires (address + n) % 4 == 0 && (address + f) % 4 == 0 && f < n
    ensures f + 4 <= n && (address + (f + 4)) % 4 == 0
  {
  }

  lemma WordInside(fmt: seq<byte>, fmtAddress: nat, f: nat)
    requires Terminated(fmt, fmtAddress) && f <= Length(fmt) && AlignedAt(fmtAddress, f)
    ensures f + 4 <= |fmt| && AlignedAt(fmtAddress, f + 4)
  {
    WordFits(fmtAddress, f, |fmt|);
  }

  lemma SkipWord(fmt: seq<byte>, f: nat)
    requires f + 4 <= |fmt| && f <= Length(fmt) && !HasPercent(WordAt(fmt, f)) && !HasZero(WordAt(fmt, f))
    ensures Stop(fmt, f + 4) == Stop(fmt, f) && f + 4 <= Length(fmt)
  {
    HasPercentExact(fmt[f], fmt[f + 1], fmt[f + 2], fmt[f + 3]);
    HasZeroExact(fmt[f], fmt[f + 1], fmt[f + 2], fmt[f + 3]);
    assert Stop(fmt, f + 1) == Stop(fmt, f) && Stop(fmt, f + 2) == Stop(fmt, f + 1);
    assert Stop(fmt, f + 3) == Stop(fmt, f + 2) && Stop(fmt, f + 4) == Stop(fmt, f + 3);
    var n := Length(fmt);
    assert n != f && n != f + 1 && n != f + 2 && n != f + 3;
  }

  /** The formatter, when it comes to offset `f`, stays inside the format from there on. */
  ghost predicate Inside(fmt: seq<byte>, f: nat, directive: nat -> Directive)
    requires f <= Length(fmt)
    decreases Length(fmt) - f, 1
  {
    var g := Stop(fmt, f);
    g < Length(fmt) ==> Goes(fmt, g, directive)
  }

  /** The same for the directive at `g`. */
  ghost predicate Goes(fmt: seq<byte>, g: nat, directive: nat -> Directive)
    requires g < Length(fmt)
    decreases Length(fmt) - g, 0
  {
    var d := directive(g);
    g < d.next <= Length(fmt) && ProperField(d.field) && Inside(fmt, d.next, directive)
  }

  /** The text that the format stands for from offset `f` on. */
  ghost function FormatText(fmt: seq<byte>, f: nat, directive: nat -> Directive): seq<byte>
    requires f <= Length(fmt)
    decreases Length(fmt) - f, 1
  {
    var g := Stop(fmt, f);
    if g < Length(fmt) then fmt[f..g] + Remaining(fmt, g, directive) else fmt[f..Length(fmt)]
  }

  /** The text from a percent sign or the terminator on. */
  ghost function Remaining(fmt: seq<byte>, g: nat, directive: nat -> Directive): seq<byte>
    requires g <= Length(fmt)
    decreases Length(fmt) - g, 0
  {
    var d := directive(g);
    if g < Length(fmt) && g < d.next <= Length(fmt) then FieldText(d.field) + FormatText(fmt, d.next, directive) else []
  }

  lemma FormatStep(fmt: seq<byte>, f: nat, directive: nat -> Directive)
    requires f <= Length(fmt) < |fmt| && Stop(fmt, f) <= Length(fmt) && Inside(fmt, f, directive)
    ensures FormatText(fmt, f, directive) == fmt[f..Stop(fmt, f)] + Remaining(fmt, Stop(fmt, f), directive)
    ensures Stop(fmt, f) < Length(fmt) ==> Goes(fmt, Stop(fmt, f), directive)
  {
  }

  lemma Reassociate(text: seq<byte>, a: seq<byte>, b: seq<byte>, c: seq<byte>)
    ensures text + (a + (b + c)) == text + a + b + c
  {
  }

  /** Works out how many spaces and zeros pad the field. */
  method Layout(f: Field) returns (fw: nat, pr: nat, commas: bool)
    ensures PaddingOf(f) == Padding(fw, pr, commas)
  {
    var p := if f.precision < |f.body| then |f.body| else f.precision;
    var n := p + |f.lead|;
    var w := if f.width < n then n else f.width;
    fw, pr, commas := w - n, p - |f.body|, f.commas;
    if !f.left {
      if f.zero {
        pr := if fw > pr then fw else pr;
        fw := 0;
      } else {
        commas := false;
      }
    }
  }

  function Front(f: Field, fw: nat, pr: nat, commas: bool): seq<byte> {
    (if f.left then [] else Repeat(SPACE, fw)) + f.lead + Zeros(pr, pr, |f.body|, f.group, commas)
  }

  lemma FrontParts(base: seq<byte>, f: Field, fw: nat, pr: nat, commas: bool)
    ensures base + Front(f, fw, pr, commas) + [] == base + Front(f, fw, pr, commas)
    ensures fw + pr == 0 ==> base + f.lead == base + Front(f, fw, pr, commas)
  {
  }

  lemma FieldParts(f: Field, p: Padding)
    requires p == PaddingOf(f)
    ensures f.left ==> FieldText(f) == Front(f, p.spaces, p.zeros, p.commas) + f.body + Repeat(SPACE, p.spaces)
    ensures !f.left ==> FieldText(f) == Front(f, p.spaces, p.zeros, p.commas) + f.body
  {
  }

  lemma {:induction false} PlainZeros(k: nat, zeros: nat, l: nat, group: nat)
    requires k <= zeros
    ensures Zeros(k, zeros, l, group, false) == Repeat(ZERO, k)
  {
    if k > 0 { PlainZeros(k - 1, zeros, l, group); }
  }

  /** The comma counter of the padding after `i` characters. */
  predicate Counting(cs: nat, i: nat, zeros: nat, l: nat, group: nat)
    requires i <= zeros
  {
    && (group == 0 || group == 3 || group == 4 || group == 8)
    && cs == group - (zeros - i + l) % (group + 1)
  }

  method FirstCount(zeros: nat, l: nat, group: nat) returns (cs: nat)
    requires group == 0 || group == 3 || group == 4 || group == 8
    ensures Counting(cs, 0, zeros, l, group)
  {
    cs := group - (zeros + l) % (group + 1);
  }

  lemma CountStep(cs: nat, i: nat, zeros: nat, l: nat, group: nat)
    requires i < zeros && Counting(cs, i, zeros, l, group)
    ensures cs == group <==> CommaPlace(zeros - 1 - i + l, group)
    ensures Counting(if cs == group then 0 else cs + 1, i + 1, zeros, l, group)
  {
    var x := zeros - 1 - i + l;
    if group > 0 { ModStep(x, group); }
  }
}
