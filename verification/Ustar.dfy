/**
 The initrd reader: a walk over the headers of a ustar image that builds a list of cache entries,
 and reads from the files found. Positions are offsets into the image.
 */
module Ustar {
  import opened LinkedList

  const WORD := 0x1_0000_0000_0000_0000
  const BLOCK := 512 // size of a header, and the unit of file data
  const PATH := 100
  const SIZE_AT := 124
  const SIZE_DIGITS := 11
  const TYPE_AT := 156
  const MARK_AT := 257
  const MARK: seq<nat> := [117, 115, 116, 97, 114, 0] // "ustar" and its terminator
  const ZERO := 48 // the character '0'

  const NORMAL_FILE := 48
  const HARD_LINK := 49
  const DIRECTORY := 53

  /** A file of an archive. */
  datatype File = File(path: seq<nat>, kind: nat, data: seq<nat>)

  /** What the reader keeps of an entry. */
  datatype Cache = Cache(entry: nat, filesize: nat, attributes: nat, dataStart: nat, dataEnd: nat)

  function Attributes(kind: nat): nat {
    if kind == NORMAL_FILE then 17 else if kind == DIRECTORY then 4 else if kind == HARD_LINK then 8 else 0
  }

  /** The number of bytes that file data takes up in the image. */
  function Padded(size: nat): nat {
    if size == 0 then 0 else (size / BLOCK + (if size % BLOCK != 0 then 1 else 0)) * BLOCK
  }

  lemma PaddedBounds(size: nat)
    ensures size <= Padded(size) < size + BLOCK && Padded(size) % BLOCK == 0
  {
  }

  /** The value of a byte as a signed character. */
  function Char(b: nat): int {
    if b < 128 then b else b - 256
  }

  /** What the octal parser makes of any characters. */
  function OctalValue(digits: seq<nat>): int {
    if digits == [] then 0 else OctalValue(digits[..|digits| - 1]) * 8 + Char(digits[|digits| - 1]) - ZERO
  }

  predicate IsInt(n: int) {
    -0x8000_0000 <= n < 0x8000_0000
  }

  /** Parsing the first `i` characters and multiplying on does not leave the 32-bit integers. */
  predicate PrefixFits(digits: seq<nat>, i: nat)
    requires i <= |digits|
  {
    IsInt(OctalValue(digits[..i])) && (i < |digits| ==> IsInt(OctalValue(digits[..i]) * 8))
  }

  predicate NoOverflow(digits: seq<nat>) {
    forall i :: 0 <= i <= |digits| ==> PrefixFits(digits, i)
  }

  /** The `n` octal digits of a number, the last ones if it has more. */
  function Octal(v: nat, n: nat): (digits: seq<nat>)
    ensures |digits| == n && forall i :: 0 <= i < n ==> ZERO <= digits[i] < ZERO + 8
  {
    if n == 0 then [] else Octal(v / 8, n - 1) + [ZERO + v % 8]
  }

  function Power8(n: nat): nat {
    if n == 0 then 1 else 8 * Power8(n - 1)
  }

  lemma {:induction false} OctalRoundTrip(v: nat, n: nat)
    requires v < Power8(n)
    ensures OctalValue(Octal(v, n)) == v
  {
    if n > 0 {
      OctalRoundTrip(v / 8, n - 1);
      assert Octal(v, n)[..n - 1] == Octal(v / 8, n - 1);
    }
  }

  lemma {:induction false} OctalPrefix(digits: seq<nat>, i: nat)
    requires i <= |digits| && forall j :: 0 <= j < |digits| ==> ZERO <= digits[j] < ZERO + 8
    ensures 0 <= OctalValue(digits[..i]) <= OctalValue(digits)
    decreases |digits|
  {
    if i == |digits| {
      assert digits[..i] == digits;
      if i > 0 { OctalPrefix(digits[..i - 1], i - 1); }
    } else {
      OctalPrefix(digits[..|digits| - 1], i);
      assert digits[..|digits| - 1][..i] == digits[..i];
    }
  }

  /** Octal digits that stand for a 32-bit integer are parsed without overflow. */
  lemma DigitsFit(digits: seq<nat>)
    requires forall j :: 0 <= j < |digits| ==> ZERO <= digits[j] < ZERO + 8
    ensures NoOverflow(digits) <==> OctalValue(digits) < 0x8000_0000
  {
    assert digits[..|digits|] == digits;
    if OctalValue(digits) < 0x8000_0000 {
      forall i | 0 <= i <= |digits| ensures PrefixFits(digits, i) {
        OctalPrefix(digits, i);
        if i < |digits| {
          OctalPrefix(digits, i + 1);
          assert digits[..i + 1][..i] == digits[..i];
        }
      }
    } else {
      assert !PrefixFits(digits, |digits|);
    }
  }

  /** Reads `size` characters into a 32-bit integer. */
  method Oct2Bin(image: seq<nat>, at: nat, size: nat) returns (n: int)
    requires at + size <= |image| && NoOverflow(image[at..at + size])
    ensures n == OctalValue(image[at..at + size])
  {
    n := 0;
    ghost var digits := image[at..at + size];
    for i := 0 to size
      invariant n == OctalValue(digits[..i])
    {
      assert PrefixFits(digits, i) && PrefixFits(digits, i + 1);
      assert digits[..i + 1][..i] == digits[..i] && digits[..i + 1][i] == image[at + i];
      n := n * 8;
      assert IsInt(n); // no overflow
      n := n + (Char(image[at + i]) - ZERO);
      assert IsInt(n);
    }
    assert digits[..size] == digits;
  }

  /** The string that begins at the front of `s`, up to the terminator. */
  function CString(s: seq<nat>): seq<nat> {
    if s == [] || s[0] == 0 then [] else [s[0]] + CString(s[1..])
  }

  /** The size field holds the octal digits of a size. */
  predicate SizeField(digits: seq<nat>, size: nat) {
    digits == Octal(size, |digits|)
  }

  /** The header at `at` describes `f`. */
  ghost predicate HeaderAt(image: seq<nat>, at: nat, f: File) {
    && at + BLOCK <= |image|
    && |f.path| < PATH && 0 !in f.path && image[at..at + |f.path|] == f.path && image[at + |f.path|] == 0
    && |f.data| < 0x8000_0000 && SizeField(image[at + SIZE_AT..at + SIZE_AT + SIZE_DIGITS], |f.data|)
    && image[at + TYPE_AT] == f.kind
    && image[at + MARK_AT..at + MARK_AT + 6] == MARK
  }

  function Next(at: nat, f: File): nat {
    at + BLOCK + Padded(|f.data|)
  }

  /** The header and the data of `f` are stored at `at`. */
  ghost predicate EntryAt(image: seq<nat>, at: nat, f: File) {
    && HeaderAt(image, at, f) && at + BLOCK + |f.data| <= Next(at, f) <= |image|
    && image[at + BLOCK..at + BLOCK + |f.data|] == f.data
  }

  /** The image holds `files` from offset `at` on, and then a block without the mark. */
  ghost predicate Archive(image: seq<nat>, at: nat, files: seq<File>)
    decreases |files|
  {
    if files == [] then at + BLOCK <= |image| && image[at + MARK_AT..at + MARK_AT + 6] != MARK
    else
      EntryAt(image, at, files[0]) && Archive(image, Next(at, files[0]), files[1..])
  }

  function CacheOf(f: File, at: nat): Cache {
    Cache(at, |f.data|, Attributes(f.kind), at + BLOCK, Next(at, f))
  }

  /** The cache entries of files stored from offset `at` on. */
  function CachesOf(files: seq<File>, at: nat): (caches: seq<Cache>)
    ensures |caches| == |files|
    decreases |files|
  {
    if files == [] then [] else [CacheOf(files[0], at)] + CachesOf(files[1..], Next(at, files[0]))
  }

  /** Where file `i` begins. */
  function Offset(files: seq<File>, at: nat, i: nat): nat
    requires i <= |files|
    decreases |files|
  {
    if i == 0 then at else Offset(files[1..], Next(at, files[0]), i - 1)
  }

  lemma {:induction false} CacheAt(files: seq<File>, at: nat, i: nat)
    requires i < |files|
    ensures CachesOf(files, at)[i] == CacheOf(files[i], Offset(files, at, i))
    ensures Offset(files, at, i + 1) == Next(Offset(files, at, i), files[i])
    decreases |files|
  {
    if i > 0 { CacheAt(files[1..], Next(at, files[0]), i - 1); }
  }

  /** What the image holds for each file. */
  lemma {:induction false} ArchiveAt(image: seq<nat>, at: nat, files: seq<File>, i: nat)
    requires Archive(image, at, files) && i <= |files|
    ensures Archive(image, Offset(files, at, i), files[i..])
    decreases |files|
  {
    if i > 0 {
      ArchiveAt(image, Next(at, files[0]), files[1..], i - 1);
      assert files[1..][i - 1..] == files[i..];
    }
  }

  lemma {:induction false} OffsetsRise(files: seq<File>, at: nat, i: nat, j: nat)
    requires i <= j <= |files|
    ensures Offset(files, at, i) + BLOCK * (j - i) <= Offset(files, at, j)
    decreases j
  {
    if i < j {
      OffsetsRise(files, at, i, j - 1);
      CacheAt(files, at, j - 1);
    }
  }

  lemma CacheShape(files: seq<File>, at: nat, i: nat)
    requires i < |files|
    ensures var c := CachesOf(files, at)[i];
      && c.entry == Offset(files, at, i) && c.dataEnd == Offset(files, at, i + 1)
      && c.dataStart == c.entry + BLOCK && c.dataStart + c.filesize <= c.dataEnd
  {
    CacheAt(files, at, i);
    PaddedBounds(|files[i].data|);
  }

  lemma ArchiveInside(image: seq<nat>, files: seq<File>, i: nat)
    requires Archive(image, 0, files) && i < |files|
    ensures Offset(files, 0, i + 1) <= |image|
  {
    ArchiveAt(image, 0, files, i);
    CacheAt(files, 0, i);
  }

  /** Entries lie one after the other, so their data ranges are disjoint. */
  lemma RangesDisjoint(files: seq<File>, at: nat, i: nat, j: nat)
    requires i < j < |files|
    ensures var c, d := CachesOf(files, at)[i], CachesOf(files, at)[j];
      c.entry < c.dataStart && c.dataStart + c.filesize <= c.dataEnd <= d.entry < d.dataStart
  {
    CacheShape(files, at, i);
    CacheShape(files, at, j);
    OffsetsRise(files, at, i + 1, j);
  }

  /** Every data range lies inside the image. */
  lemma RangeInside(image: seq<nat>, files: seq<File>, i: nat)
    requires Archive(image, 0, files) && i < |files|
    ensures var c := CachesOf(files, 0)[i]; c.dataStart + c.filesize <= c.dataEnd <= |image|
  {
    CacheShape(files, 0, i);
    ArchiveInside(image, files, i);
  }

  // Writing an archive

  function Zeros(n: nat): (z: seq<nat>)
    ensures |z| == n && forall i :: 0 <= i < n ==> z[i] == 0
  {
    if n == 0 then [] else Zeros(n - 1) + [0]
  }

  /** A header byte: the fields the reader looks at, and `fill` in the others. */
  function HeaderByte(f: File, fill: nat -> nat, i: nat): nat {
    if i < |f.path| then f.path[i]
    else if i < PATH then 0
    else if SIZE_AT <= i < SIZE_AT + SIZE_DIGITS then Octal(|f.data|, SIZE_DIGITS)[i - SIZE_AT]
    else if i == TYPE_AT then f.kind
    else if MARK_AT <= i < MARK_AT + 6 then MARK[i - MARK_AT]
    else fill(i)
  }

  function Header(f: File, fill: nat -> nat): (h: seq<nat>) {
    seq(BLOCK, (i: nat) => HeaderByte(f, fill, i))
  }

  /** A header and the padded data. */
  function Entry(f: File, fill: nat -> nat): (e: seq<nat>)
    ensures |e| == BLOCK + Padded(|f.data|)
  {
    PaddedBounds(|f.data|);
    Header(f, fill) + f.data + Zeros(Padded(|f.data|) - |f.data|)
  }

  predicate Storable(f: File) {
    |f.path| < PATH && 0 !in f.path && |f.data| < 0x8000_0000
  }

  /** The image of an archive: the entries and two empty blocks. */
  function Serialise(files: seq<File>, fill: nat -> nat): seq<nat> {
    if files == [] then Zeros(2 * BLOCK) else Entry(files[0], fill) + Serialise(files[1..], fill)
  }

  lemma HeaderFits(image: seq<nat>, at: nat, f: File, fill: nat -> nat)
    requires Storable(f) && at + BLOCK <= |image|
    requires forall i: nat :: i < BLOCK ==> image[at + i] == HeaderByte(f, fill, i)
    ensures HeaderAt(image, at, f)
  {
    forall i: nat | i < |f.path| ensures image[at..at + |f.path|][i] == f.path[i] {
      assert image[at + i] == HeaderByte(f, fill, i);
    }
    var digits := Octal(|f.data|, SIZE_DIGITS);
    forall i: nat | i < SIZE_DIGITS ensures image[at + SIZE_AT..at + SIZE_AT + SIZE_DIGITS][i] == digits[i] {
      assert image[at + (SIZE_AT + i)] == HeaderByte(f, fill, SIZE_AT + i);
    }
    forall i: nat | i < 6 ensures image[at + MARK_AT..at + MARK_AT + 6][i] == MARK[i] {
      assert image[at + (MARK_AT + i)] == HeaderByte(f, fill, MARK_AT + i);
    }
    assert image[at + |f.path|] == HeaderByte(f, fill, |f.path|);
    assert image[at + TYPE_AT] == HeaderByte(f, fill, TYPE_AT);
  }

  lemma EntryStored(image: seq<nat>, at: nat, f: File, fill: nat -> nat, after: seq<nat>)
    requires Storable(f) && at <= |image| && image[at..] == Entry(f, fill) + after
    ensures EntryAt(image, at, f) && image[Next(at, f)..] == after
  {
    var rest := image[at..];
    PaddedBounds(|f.data|);
    forall i: nat | i < BLOCK ensures image[at + i] == HeaderByte(f, fill, i) {
      assert image[at + i] == rest[i] == Entry(f, fill)[i] == Header(f, fill)[i];
    }
    HeaderFits(image, at, f, fill);
    forall i: nat | i < |f.data| ensures image[at + BLOCK..at + BLOCK + |f.data|][i] == f.data[i] {
      assert image[at + BLOCK + i] == rest[BLOCK + i] == Entry(f, fill)[BLOCK + i] == f.data[i];
    }
    assert image[Next(at, f)..] == rest[|Entry(f, fill)|..];
  }

  /** Every list of files with short names and sizes below 2^31 is held by its image. */
  lemma {:induction false} SerialiseArchive(image: seq<nat>, at: nat, files: seq<File>, fill: nat -> nat)
    requires forall i :: 0 <= i < |files| ==> Storable(files[i])
    requires at <= |image| && image[at..] == Serialise(files, fill)
    ensures Archive(image, at, files)
    decreases |files|
  {
    if files == [] {
      assert image[at + MARK_AT] == image[at..][MARK_AT] == 0;
      assert image[at + MARK_AT..at + MARK_AT + 6][0] == 0;
    } else {
      EntryStored(image, at, files[0], fill, Serialise(files[1..], fill));
      SerialiseArchive(image, Next(at, files[0]), files[1..], fill);
    }
  }

  // Reading it back

  lemma HeaderRead(image: seq<nat>, at: nat, f: File)
    requires HeaderAt(image, at, f)
    ensures CString(image[at..]) == f.path
    ensures OctalValue(image[at + SIZE_AT..at + SIZE_AT + SIZE_DIGITS]) == |f.data|
    ensures forall j :: at + SIZE_AT <= j < at + SIZE_AT + SIZE_DIGITS ==> ZERO <= image[j] < ZERO + 8
  {
    var path := image[at..];
    assert path[..|f.path|] == f.path && path[|f.path|] == 0;
    CStringOf(path, f.path);
    var digits := image[at + SIZE_AT..at + SIZE_AT + SIZE_DIGITS];
    assert |f.data| < Power8(|digits|) by { PowerOfEight(); }
    OctalRoundTrip(|f.data|, |digits|);
    forall j | at + SIZE_AT <= j < at + SIZE_AT + SIZE_DIGITS ensures ZERO <= image[j] < ZERO + 8 {
      assert digits[j - at - SIZE_AT] == image[j];
    }
  }

  lemma PowerOfEight()
    ensures Power8(SIZE_DIGITS) == 0x2_0000_0000
  {
    assert Power8(3) == 512;
    assert Power8(6) == 0x4_0000;
    assert Power8(9) == 0x800_0000;
  }

  lemma {:induction false} CStringOf(s: seq<nat>, path: seq<nat>)
    requires |path| < |s| && s[..|path|] == path && 0 !in path && s[|path|] == 0
    ensures CString(s) == path
  {
    if path != [] {
      assert s[0] == path[0] && path[0] in path;
      assert s[1..][..|path| - 1] == path[1..];
      CStringOf(s[1..], path[1..]);
    }
  }

  /** The index of the first file with the given path. */
  function Named(files: seq<File>, path: seq<nat>): (k: nat)
    ensures k <= |files| && (k < |files| ==> files[k].path == path) && forall i :: 0 <= i < k ==> files[i].path != path
  {
    if files == [] || files[0].path == path then 0 else 1 + Named(files[1..], path)
  }

  /** The nodes of the cache list hold the given entries. */
  ghost predicate Holds(mem: map<nat, Cell<Cache>>, nodes: seq<nat>, caches: seq<Cache>) {
    |nodes| == |caches| && forall i :: 0 <= i < |nodes| ==> nodes[i] in mem && mem[nodes[i]].data == caches[i]
  }

  ghost predicate ListOf(mem: map<nat, Cell<Cache>>, ends: Ends, size: nat, nodes: seq<nat>, caches: seq<Cache>) {
    Linked(mem, ends, nodes) && size == |nodes| && Holds(mem, nodes, caches)
  }

  /** What happens to a read: the bytes, a refusal, or an access outside the objects of the driver. */
  datatype Outcome = Data(bytes: seq<nat>) | Refused | NullAccess | Overrun

  function Expected(files: seq<File>, path: seq<nat>, nToSkip: nat, nToRead: nat): Outcome {
    var k := Named(files, path);
    if k == |files| then NullAccess
    else
      var data := files[k].data;
      if nToSkip >= |data| then Refused
      else if nToSkip + nToRead <= |data| then Data(data[nToSkip..nToSkip + nToRead])
      else if nToSkip + nToRead < WORD then Refused
      else Overrun
  }

  /** A read faults neither way if and only if the path is in the archive and the end does not wrap. */
  lemma FaultlessIff(files: seq<File>, path: seq<nat>, nToSkip: nat, nToRead: nat)
    requires forall i :: 0 <= i < |files| ==> |files[i].data| < WORD
    ensures var r, k := Expected(files, path, nToSkip, nToRead), Named(files, path);
      (r.Data? || r.Refused?) <==> k < |files| && (nToSkip >= |files[k].data| || nToSkip + nToRead < WORD)
  {
  }

  /** An archive of one file "a" of two bytes, in which "b" is absent, and a read of "a" that wraps. */
  lemma FaultWitness(fill: nat -> nat)
    ensures var files := [File([97], NORMAL_FILE, [1, 2])];
      && Stored(Serialise(files, fill), files)
      && Expected(files, [98], 0, 1) == NullAccess && Expected(files, [97], 1, WORD - 1) == Overrun
  {
    var files := [File([97], NORMAL_FILE, [1, 2])];
    SerialisedStored(files, fill);
    assert Named(files, [97]) == 0;
    assert Named(files, [98]) == 1;
  }

  /** A header at `at` that the reader makes out: the size digits and the type. */
  ghost predicate Readable(image: seq<nat>, at: nat, size: nat, kind: nat) {
    && at + BLOCK <= |image| && image[at + TYPE_AT] == kind && size < 0x8000_0000
    && (forall j :: at + SIZE_AT <= j < at + SIZE_AT + SIZE_DIGITS ==> ZERO <= image[j] < ZERO + 8)
    && OctalValue(image[at + SIZE_AT..at + SIZE_AT + SIZE_DIGITS]) == size
  }

  /** The path and the data of `f` can be read through the cache entry. */
  ghost predicate Reaches(image: seq<nat>, c: Cache, f: File) {
    && c.entry <= |image| && CString(image[c.entry..]) == f.path && c.filesize == |f.data|
    && c.dataStart + c.filesize <= |image| && image[c.dataStart..c.dataStart + c.filesize] == f.data
  }

  /** What the walk finds at offset number `i`: a header, or the end of the archive. */
  ghost predicate Found(image: seq<nat>, files: seq<File>, i: nat)
    requires i <= |files|
  {
    var at := Offset(files, 0, i);
    && at + BLOCK <= |image|
    && (image[at + MARK_AT..at + MARK_AT + 6] == MARK <==> i < |files|)
    && (i < |files| ==> Readable(image, at, |files[i].data|, files[i].kind))
    && (i < |files| ==> CachesOf(files, 0)[i] == CacheOf(files[i], at))
    && (i < |files| ==> Offset(files, 0, i + 1) == CacheOf(files[i], at).dataEnd)
    && (i < |files| ==> Reaches(image, CachesOf(files, 0)[i], files[i]))
  }

  ghost predicate Stored(image: seq<nat>, files: seq<File>) {
    forall i :: 0 <= i <= |files| ==> Found(image, files, i)
  }

  lemma EntryRead(image: seq<nat>, at: nat, f: File)
    requires EntryAt(image, at, f)
    ensures Readable(image, at, |f.data|, f.kind) && Reaches(image, CacheOf(f, at), f)
  {
    HeaderRead(image, at, f);
  }

  /** The reader finds the files of every archive. */
  lemma ArchiveStored(image: seq<nat>, files: seq<File>)
    requires Archive(image, 0, files)
    ensures Stored(image, files)
  {
    forall i | 0 <= i <= |files| ensures Found(image, files, i) {
      ArchiveAt(image, 0, files, i);
      if i < |files| {
        CacheAt(files, 0, i);
        EntryRead(image, Offset(files, 0, i), files[i]);
      }
    }
  }

  /** The reader finds every list of files with short names and sizes below 2^31 in its image. */
  lemma SerialisedStored(files: seq<File>, fill: nat -> nat)
    requires forall i :: 0 <= i < |files| ==> Storable(files[i])
    ensures Stored(Serialise(files, fill), files)
  {
    var image := Serialise(files, fill);
    assert image[0..] == image;
    SerialiseArchive(image, 0, files, fill);
    ArchiveStored(image, files);
  }

  class Initrd {
    const image: seq<nat>
    var mem: map<nat, Cell<Cache>>
    var head: nat
    var tail: nat
    var size: nat

    constructor (image: seq<nat>)
      ensures this.image == image && Valid([])
    {
      this.image := image;
      mem, head, tail, size := map[], 0, 0, 0;
      new;
      assert ListOf(mem, Ends(head, tail), size, [], []);
    }

    /** The cache list holds exactly the given entries, in order. */
    ghost predicate Valid(caches: seq<Cache>)
      reads this
    {
      exists nodes :: ListOf(mem, Ends(head, tail), size, nodes, caches)
    }

    method AddNode(cache: Cache, ghost caches: seq<Cache>)
      requires Valid(caches)
      modifies this
      ensures Valid(caches + [cache])
    {
      var node := FreshAddress(mem);
      ghost var nodes :| ListOf(mem, Ends(head, tail), size, nodes, caches);
      ghost var mem0 := mem;
      if nodes != [] { assert CellOk(mem, nodes, |nodes| - 1); }
      var mem', ends := Append(mem, Ends(head, tail), node, cache, nodes);
      mem, head, tail := mem', ends.first, ends.last;
      size := size + 1;
      Kept(mem0, mem, Ends(old(head), old(tail)), nodes, node, cache, caches);
      assert ListOf(mem, Ends(head, tail), size, nodes + [node], caches + [cache]);
    }

    /** Builds the cache list of an archive. An image that does not begin with a header is refused. */
    method InitializeFilesystemCache(ghost files: seq<File>) returns (ok: bool)
      requires Stored(image, files) && Valid([])
      modifies this
      ensures ok <==> files != []
      ensures Valid(CachesOf(files, 0))
    {
      var entry: nat := 0;
      assert Found(image, files, 0);
      if image[entry + MARK_AT..entry + MARK_AT + 6] != MARK {
        return false;
      }
      ghost var i := 0;
      ghost var caches := CachesOf(files, 0);
      while image[entry + MARK_AT..entry + MARK_AT + 6] == MARK
        invariant 0 <= i <= |files| && entry == Offset(files, 0, i) && entry + BLOCK <= |image|
        invariant Valid(caches[..i])
        decreases |files| - i
      {
        assert Found(image, files, i) && Found(image, files, i + 1);
        entry := CacheEntry(entry, files, i);
        i := i + 1;
      }
      assert Found(image, files, i);
      assert caches[..i] == caches;
      return true;
    }

    /** Appends the entry at `entry` to the list and returns the place of the next one. */
    method CacheEntry(entry: nat, ghost files: seq<File>, ghost i: nat) returns (next: nat)
      requires i < |files| && Found(image, files, i) && entry == Offset(files, 0, i) && Valid(CachesOf(files, 0)[..i])
      modifies this
      ensures next == Offset(files, 0, i + 1) && Valid(CachesOf(files, 0)[..i + 1])
    {
      var cache := ReadEntry(entry, |files[i].data|, files[i].kind);
      AddNode(cache, CachesOf(files, 0)[..i]);
      PrefixGrows(CachesOf(files, 0), i);
      next := cache.dataEnd;
    }

    method ReadEntry(entry: nat, ghost size: nat, ghost fileType: nat) returns (cache: Cache)
      requires Readable(image, entry, size, fileType)
      ensures cache == Cache(entry, size, Attributes(fileType), entry + BLOCK, entry + BLOCK + Padded(size))
    {
      DigitsFit(image[entry + SIZE_AT..entry + SIZE_AT + SIZE_DIGITS]);
      var filesize := Oct2Bin(image, entry + SIZE_AT, SIZE_DIGITS);
      var dataStart, dataEnd := entry + BLOCK, entry + BLOCK;
      if filesize != 0 {
        dataEnd := dataStart + (filesize / BLOCK + (if filesize % BLOCK != 0 then 1 else 0)) * BLOCK;
      }
      var attributes := 0;
      var kind := image[entry + TYPE_AT];
      if kind == NORMAL_FILE {
        attributes := 16 + 1;
      } else if kind == DIRECTORY {
        attributes := 4;
      } else if kind == HARD_LINK {
        attributes := 8;
      }
      cache := Cache(entry, filesize, attributes, dataStart, dataEnd);
    }

    /** The first node whose entry has the given path, or 0. */
    method FindNode(path: seq<nat>, ghost files: seq<File>) returns (node: nat)
      requires Stored(image, files) && Valid(CachesOf(files, 0))
      ensures var k := Named(files, path);
        if k == |files| then node == 0 else node != 0 && node in mem && mem[node].data == CachesOf(files, 0)[k]
    {
      ghost var nodes :| ListOf(mem, Ends(head, tail), size, nodes, CachesOf(files, 0));
      node := head;
      ghost var i, k := 0, Named(files, path);
      ghost var caches := CachesOf(files, 0);
      if nodes != [] { assert CellOk(mem, nodes, 0); }
      while node != 0
        invariant 0 <= i <= k && (if i < |nodes| then node == nodes[i] && node != 0 else node == 0)
        decreases |nodes| - i
      {
        assert CellOk(mem, nodes, i);
        assert i + 1 < |nodes| ==> CellOk(mem, nodes, i + 1);
        assert Found(image, files, i);
        if path == CString(image[mem[node].data.entry..]) {
          break;
        }
        node := mem[node].next;
        i := i + 1;
      }
    }

    /** The node's cache is used without a test for null, and sums are taken modulo 2^64. */
    method ReadFile(path: seq<nat>, nToSkip: nat, nToRead: nat, ghost files: seq<File>) returns (r: Outcome)
      requires Stored(image, files) && Valid(CachesOf(files, 0)) && nToSkip < WORD && nToRead < WORD
      ensures r == Expected(files, path, nToSkip, nToRead)
    {
      var node := FindNode(path, files);
      if node == 0 {
        return NullAccess;
      }
      ghost var k := Named(files, path);
      assert Found(image, files, k);
      var cache := mem[node].data;
      if nToSkip >= cache.filesize {
        return Refused;
      }
      if (nToSkip + nToRead) % WORD > cache.filesize {
        return Refused;
      }
      if nToSkip + nToRead > cache.filesize {
        return Overrun; // the sum has wrapped and the copy leaves the file
      }
      var from := cache.dataStart + nToSkip;
      SliceOf(image, cache.dataStart, cache.filesize, files[k].data, nToSkip, nToRead);
      return Data(image[from..from + nToRead]);
    }
  }

  lemma PrefixGrows(caches: seq<Cache>, i: nat)
    requires i < |caches|
    ensures caches[..i] + [caches[i]] == caches[..i + 1]
  {
  }

  lemma Kept(mem: map<nat, Cell<Cache>>, mem': map<nat, Cell<Cache>>, ends: Ends, nodes: seq<nat>, a: nat,
             cache: Cache, caches: seq<Cache>)
    requires Holds(mem, nodes, caches) && a !in mem && mem'.Keys == mem.Keys + {a}
    requires forall b :: b in mem' ==> mem'[b] == AppendedAt(mem, ends.last, a, cache, b)
    ensures Holds(mem', nodes + [a], caches + [cache])
  {
  }

  lemma SliceOf(image: seq<nat>, start: nat, size: nat, data: seq<nat>, skip: nat, n: nat)
    requires start + size <= |image| && image[start..start + size] == data && skip + n <= size
    ensures image[start + skip..start + skip + n] == data[skip..skip + n]
  {
    var slice := image[start + skip..start + skip + n];
    forall i: nat | i < n ensures slice[i] == data[skip + i] {
      assert data[skip + i] == image[start..start + size][skip + i] == image[start + (skip + i)];
    }
  }
}
