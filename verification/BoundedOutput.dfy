/**
 Bounded formatting: the callback that copies chunks into a destination of limited size, and the
 one that only counts.
 */
module BoundedOutput {
  import opened WordScan
  import opened FormatDirective
  import opened FormatOutput

  /** The destination holds the beginning of `text`, as far as it fits below `count`, and is untouched after that. */
  ghost predicate Holds(dest: seq<byte>, was: seq<byte>, text: seq<byte>, count: nat) {
    && |dest| == |was| && count <= |dest|
    && (forall i :: 0 <= i < Min(|text|, count) ==> dest[i] == text[i])
    && (forall i :: Min(|text|, count) <= i < |dest| ==> dest[i] == was[i])
  }

  class Context {
    const min: nat
    const dest: array<byte>
    const tmp: array<byte>
    const total: nat // the size given for the destination
    var at: nat // where the rest of the destination begins
    var count: nat // how much of it is left
    var length: nat

    constructor (min: nat, dest: array<byte>, count: nat)
      requires min >= 1 && count <= dest.Length
      ensures this.min == min && this.dest == dest && total == count && fresh(tmp)
      ensures Valid() && at == 0 && length == 0
    {
      this.min, this.dest, total := min, dest, count;
      tmp := new byte[min];
      at, this.count, length := 0, count, 0;
    }

    ghost predicate Valid()
      reads this
    {
      min >= 1 && tmp.Length == min && tmp != dest && at + count == total <= dest.Length
    }

    /** Whether the formatter writes straight into the destination. */
    function Direct(): bool
      reads this
    {
      count >= min
    }

    /** The formatter's writes into the buffer it was given. */
    method Write(chunk: seq<byte>)
      requires Valid() && |chunk| <= min
      modifies dest, tmp
      ensures Direct() ==> dest[..] == Overwritten(old(dest[..]), at, chunk)
      ensures !Direct() ==> dest[..] == old(dest[..]) && tmp[..|chunk|] == chunk
    {
      if Direct() {
        CopyInto(dest, at, chunk);
      } else {
        CopyInto(tmp, 0, chunk);
        assert tmp[..|chunk|] == tmp[..][..|chunk|];
      }
    }

    /** Takes over `len0` characters from the buffer they were written to. */
    method ClampCallback(len0: nat)
      requires Valid() && len0 <= min
      modifies dest, this`at, this`count, this`length
      ensures Valid() && length == old(length) + len0 && at == old(at) + Min(len0, old(count))
      ensures dest[..] == if old(Direct()) then old(dest[..])
        else Overwritten(old(dest[..]), old(at), old(tmp[..Min(len0, count)]))
    {
      length := length + len0;
      var len := if len0 > count then count else len0;
      assert len == Min(len0, old(count));
      if len != 0 {
        if !Direct() {
          CopyInto(dest, at, tmp[..len]);
        }
        at := at + len;
        count := count - len;
      }
    }

    /** One chunk: written into the buffer and handed to the callback. */
    method Take(chunk: seq<byte>, ghost was: seq<byte>, ghost text: seq<byte>)
      requires Valid() && |chunk| <= min && at == Min(|text|, total) && Holds(dest[..], was, text, total)
      modifies this, dest, tmp
      ensures Valid() && length == old(length) + |chunk|
      ensures at == Min(|text + chunk|, total) && Holds(dest[..], was, text + chunk, total)
    {
      ghost var before, at0, count0 := dest[..], at, count;
      ghost var m := Min(|chunk|, count);
      Write(chunk);
      assert Direct() ==> chunk[..m] == chunk;
      assert !Direct() ==> tmp[..m] == chunk[..m] by { if !Direct() { assert tmp[..|chunk|][..m] == tmp[..m]; } }
      ClampCallback(|chunk|);
      assert dest[..] == Overwritten(before, at0, chunk[..m]);
      TakenHolds(before, dest[..], was, text, chunk, at0, count0, total);
    }
  }

  /** Copies a text into an array, character by character. */
  method CopyInto(a: array<byte>, at: nat, s: seq<byte>)
    requires at + |s| <= a.Length
    modifies a
    ensures a[..] == Overwritten(old(a[..]), at, s)
  {
    for i := 0 to |s|
      invariant forall j :: 0 <= j < a.Length ==> a[j] == if at <= j < at + i then s[j - at] else old(a[j])
    {
      a[at + i] := s[i];
    }
  }

  /** A chunk that fits is written whole, one that does not is cut off where the destination ends. */
  lemma TakenHolds(before: seq<byte>, after: seq<byte>, was: seq<byte>, text: seq<byte>, chunk: seq<byte>,
                   at: nat, count: nat, total: nat)
    requires Holds(before, was, text, total) && at == Min(|text|, total) && at + count == total
    requires after == Overwritten(before, at, chunk[..Min(|chunk|, count)])
    ensures Holds(after, was, text + chunk, total)
  {
  }

  /** Formats into `dest`, of which `count` bytes may be used. */
  method VSNPrintf(dest: array<byte>, count: nat, chunks: seq<seq<byte>>, min: nat) returns (length: nat)
    requires 1 <= count <= dest.Length && min >= 1 && AllShort(chunks, min)
    modifies dest
    ensures length == |Concat(chunks)|
    ensures var k := Min(length, count - 1);
      && dest[..k] == Concat(chunks)[..k] && dest[k] == 0
      && forall i :: k < i < dest.Length ==> dest[i] == old(dest[i])
  {
    var c := new Context(min, dest, count);
    ghost var was := dest[..];
    c.ClampCallback(0);
    assert Concat(chunks[..0]) == [];
    for i := 0 to |chunks|
      invariant c.Valid() && c.dest == dest && c.total == count && c.min == min && fresh(c) && fresh(c.tmp)
      invariant c.length == |Concat(chunks[..i])| && c.at == Min(|Concat(chunks[..i])|, count)
      invariant Holds(dest[..], was, Concat(chunks[..i]), count)
    {
      assert chunks[..i + 1][..i] == chunks[..i];
      c.Take(chunks[i], was, Concat(chunks[..i]));
    }
    assert chunks[..|chunks|] == chunks;
    var l := c.at;
    if l >= count {
      l := count - 1;
    }
    dest[l] := 0;
    return c.length;
  }

  /** The bytes with `chunk` written over them at `at`. */
  function Overwritten(bytes: seq<byte>, at: nat, chunk: seq<byte>): (r: seq<byte>)
    requires at + |chunk| <= |bytes|
    ensures |r| == |bytes|
  {
    bytes[..at] + chunk + bytes[at + |chunk|..]
  }

  lemma {:induction false} ConcatPrefix(chunks: seq<seq<byte>>, i: nat)
    requires i < |chunks|
    ensures Concat(chunks[..i + 1]) == Concat(chunks[..i]) + chunks[i]
  {
    assert chunks[..i + 1][..i] == chunks[..i];
  }

  /** The counting callback adds up the lengths of the chunks. */
  method CountChunks(chunks: seq<seq<byte>>) returns (length: nat)
    ensures length == |Concat(chunks)|
  {
    length := 0;
    for i := 0 to |chunks|
      invariant length == |Concat(chunks[..i])|
    {
      ConcatPrefix(chunks, i);
      length := length + |chunks[i]|;
    }
    assert chunks[..|chunks|] == chunks;
  }

  /** Bounded formatting of a format string, wherever the buffers lie. */
  method SNPrintf(dest: array<byte>, count: nat, fmt: seq<byte>, fmtAddress: nat, args: nat -> Arguments,
                  ghost directive: nat -> Directive, min: nat, address: nat -> nat) returns (length: nat)
    requires 1 <= count <= dest.Length && min >= 1 && Terminated(fmt, fmtAddress)
    requires Agrees(directive, fmt, args) && Inside(fmt, 0, directive)
    modifies dest
    ensures var text := FormatText(fmt, 0, directive); var k := Min(|text|, count - 1);
      && length == |text| && dest[..k] == text[..k] && dest[k] == 0
      && forall i :: k < i < dest.Length ==> dest[i] == old(dest[i])
  {
    var out := new Output(min, true, address);
    var total := out.VSPrintfCb(fmt, fmtAddress, args, directive);
    length := VSNPrintf(dest, count, out.chunks, min);
  }

  /** The logger's two steps: the measured length is the length then written. */
  method MeasureAndFormat(fmt: seq<byte>, fmtAddress: nat, args: nat -> Arguments, ghost directive: nat -> Directive,
                          min: nat, address: nat -> nat) returns (measured: nat, text: seq<byte>, total: nat)
    requires min >= 1 && Terminated(fmt, fmtAddress) && Agrees(directive, fmt, args) && Inside(fmt, 0, directive)
    ensures text == FormatText(fmt, 0, directive) && measured == total == |text|
  {
    var counting := new Output(min, true, address);
    total := counting.VSPrintfCb(fmt, fmtAddress, args, directive);
    measured := CountChunks(counting.chunks);
    var plain := new Output(min, false, address);
    total := plain.VSPrintfCb(fmt, fmtAddress, args, directive);
    text := plain.pending;
  }
}
