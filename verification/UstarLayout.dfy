/** A ustar header by the positions of its bytes. */
module UstarLayout {
  import opened Ustar

  /** The bytes of a header at `at`: the path, eleven octal digits of the size, the type and "ustar". */
  ghost predicate Laid(image: seq<nat>, at: nat, path: seq<nat>, size: nat, kind: nat) {
    && at + 512 <= |image|
    && |path| < 100 && 0 !in path && (forall i :: 0 <= i < |path| ==> image[at + i] == path[i])
    && image[at + |path|] == 0
    && SizeAt(image, at + 124, size)
    && image[at + 156] == kind
    && image[at + 257] == 'u' as int && image[at + 258] == 's' as int && image[at + 259] == 't' as int
    && image[at + 260] == 'a' as int && image[at + 261] == 'r' as int && image[at + 262] == 0
  }

  ghost predicate SizeAt(image: seq<nat>, at: nat, size: nat) {
    && at + 11 <= |image| && (forall j :: at <= j < at + 11 ==> '0' as int <= image[j] <= '7' as int)
    && size == Digit(image, at) * 0x4000_0000 + Digit(image, at + 1) * 0x800_0000 + Digit(image, at + 2) * 0x100_0000
    + Digit(image, at + 3) * 0x20_0000 + Digit(image, at + 4) * 0x4_0000 + Digit(image, at + 5) * 0x8000
    + Digit(image, at + 6) * 0x1000 + Digit(image, at + 7) * 512 + Digit(image, at + 8) * 64
    + Digit(image, at + 9) * 8 + Digit(image, at + 10)
  }

  function Digit(image: seq<nat>, j: nat): int
    requires j < |image|
  {
    image[j] - '0' as int
  }

  lemma NextDigit(image: seq<nat>, at: nat, n: nat)
    requires at + n < |image| && image[at + n] < 128
    ensures OctalValue(image[at..at + n + 1]) == OctalValue(image[at..at + n]) * 8 + Digit(image, at + n)
  {
    var digits := image[at..at + n + 1];
    assert digits[..n] == image[at..at + n] && digits[n] == image[at + n];
  }

  lemma FourDigits(image: seq<nat>, at: nat, n: nat)
    requires at + n + 4 <= |image| && forall j :: at + n <= j < at + n + 4 ==> image[j] < 128
    ensures OctalValue(image[at..at + n + 4]) == OctalValue(image[at..at + n]) * 0x1000 + Digit(image, at + n) * 512
      + Digit(image, at + n + 1) * 64 + Digit(image, at + n + 2) * 8 + Digit(image, at + n + 3)
  {
    NextDigit(image, at, n);
    NextDigit(image, at, n + 1);
    NextDigit(image, at, n + 2);
    NextDigit(image, at, n + 3);
  }

  lemma ThreeDigits(image: seq<nat>, at: nat)
    requires at + 3 <= |image| && forall j :: at <= j < at + 3 ==> image[j] < 128
    ensures OctalValue(image[at..at + 3]) == Digit(image, at) * 64 + Digit(image, at + 1) * 8 + Digit(image, at + 2)
  {
    assert image[at..at + 0] == [];
    NextDigit(image, at, 0);
    NextDigit(image, at, 1);
    NextDigit(image, at, 2);
  }

  lemma ElevenDigits(image: seq<nat>, at: nat, size: nat)
    requires at + 11 <= |image| && forall j :: at <= j < at + 11 ==> '0' as int <= image[j] <= '7' as int
    ensures SizeAt(image, at, size) <==> OctalValue(image[at..at + 11]) == size
  {
    ThreeDigits(image, at);
    FourDigits(image, at, 3);
    FourDigits(image, at, 7);
  }

  lemma OneMoreDigit(rest: nat, n: nat, digit: nat, v: nat)
    requires digit < 8 && v == rest * 8 + digit
    ensures Octal(v, n + 1) == Octal(rest, n) + [ZERO + digit]
  {
    assert v / 8 == rest && v % 8 == digit;
  }

  lemma LastOctal(digits: seq<nat>, n: nat)
    requires |digits| == n + 1 && digits[n] < 128
    ensures OctalValue(digits) == OctalValue(digits[..n]) * 8 + (digits[n] - ZERO)
  {
  }

  /** Octal digits are the digits of the number they stand for. */
  lemma {:induction false} DigitsDecided(digits: seq<nat>)
    requires forall j :: 0 <= j < |digits| ==> ZERO <= digits[j] < ZERO + 8
    ensures OctalValue(digits) >= 0 && Octal(OctalValue(digits), |digits|) == digits
  {
    if digits != [] {
      var n := |digits| - 1;
      var rest := digits[..n];
      DigitsDecided(rest);
      LastOctal(digits, n);
      OneMoreDigit(OctalValue(rest), n, digits[n] - ZERO, OctalValue(digits));
      assert digits == rest + [digits[n]];
    }
  }

  lemma SizeLayout(image: seq<nat>, at: nat, size: nat)
    requires at + 11 <= |image| && size < 0x8000_0000
    ensures SizeAt(image, at, size) <==> SizeField(image[at..at + 11], size)
  {
    var digits := image[at..at + 11];
    if SizeField(digits, size) {
      assert size < Power8(11) by { PowerOfEight(); }
      OctalRoundTrip(size, 11);
      forall j | at <= j < at + 11 ensures '0' as int <= image[j] <= '7' as int {
        assert image[j] == digits[j - at] == Octal(size, 11)[j - at];
      }
      ElevenDigits(image, at, size);
    } else if SizeAt(image, at, size) {
      ElevenDigits(image, at, size);
      DigitsDecided(digits);
    }
  }

  lemma MarkLayout(image: seq<nat>, at: nat)
    requires at + 512 <= |image|
    ensures image[at + MARK_AT..at + MARK_AT + 6] == MARK <==>
      && image[at + 257] == 'u' as int && image[at + 258] == 's' as int && image[at + 259] == 't' as int
      && image[at + 260] == 'a' as int && image[at + 261] == 'r' as int && image[at + 262] == 0
  {
    var mark := image[at + MARK_AT..at + MARK_AT + 6];
    assert mark[0] == image[at + 257] && mark[1] == image[at + 258] && mark[2] == image[at + 259];
    assert mark[3] == image[at + 260] && mark[4] == image[at + 261] && mark[5] == image[at + 262];
  }

  /** A header describes a file if and only if its bytes are laid out so. */
  lemma HeaderLayout(image: seq<nat>, at: nat, f: File)
    ensures HeaderAt(image, at, f) <==> Laid(image, at, f.path, |f.data|, f.kind) && |f.data| < 0x8000_0000
  {
    if at + 512 <= |image| && |f.path| < 100 && |f.data| < 0x8000_0000 {
      SizeLayout(image, at + 124, |f.data|);
      MarkLayout(image, at);
      PathLayout(image, at, f.path);
    }
  }

  lemma PathLayout(image: seq<nat>, at: nat, path: seq<nat>)
    requires at + |path| <= |image|
    ensures image[at..at + |path|] == path <==> forall i :: 0 <= i < |path| ==> image[at + i] == path[i]
  {
    if image[at..at + |path|] == path {
      forall i | 0 <= i < |path| ensures image[at + i] == path[i] { assert image[at..at + |path|][i] == path[i]; }
    }
  }

  /** What the reader makes of a header, with the attributes of each type written out. */
  method CachedEntry(d: Initrd, at: nat, ghost path: seq<nat>, ghost size: nat, ghost kind: nat)
    returns (cache: Cache)
    requires Laid(d.image, at, path, size, kind) && size < 0x8000_0000
    ensures cache.entry == at && cache.filesize == size && CString(d.image[at..]) == path
    ensures cache.dataStart == at + 512 && cache.dataEnd == at + 512 + (size + 511) / 512 * 512
    ensures kind == '0' as int ==> cache.attributes == 16 + 1
    ensures kind == '1' as int ==> cache.attributes == 8
    ensures kind == '5' as int ==> cache.attributes == 4
    ensures kind != '0' as int && kind != '1' as int && kind != '5' as int ==> cache.attributes == 0
  {
    LaidReadable(d.image, at, path, size, kind);
    cache := d.ReadEntry(at, size, kind);
    PaddedUp(size);
  }

  lemma LaidReadable(image: seq<nat>, at: nat, path: seq<nat>, size: nat, kind: nat)
    requires Laid(image, at, path, size, kind) && size < 0x8000_0000
    ensures Readable(image, at, size, kind) && CString(image[at..]) == path
  {
    ElevenDigits(image, at + 124, size);
    var rest := image[at..];
    assert rest[..|path|] == path && rest[|path|] == 0;
    CStringOf(rest, path);
  }

  lemma PaddedUp(size: nat)
    ensures Padded(size) == (size + 511) / 512 * 512
  {
  }
}
