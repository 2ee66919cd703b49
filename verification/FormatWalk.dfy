/** Where the formatter goes: from directive to directive, and whether it leaves its format. */
module FormatWalk {
  import opened WordScan
  import opened FormatField
  import opened FormatDirective
  import opened FormatOutput

  /**
   Where the formatter is after `n` directives: behind the last of them, or at the terminator if there
   are fewer. A directive without a conversion character takes it past the terminator.
   */
  ghost function Offset(fmt: seq<byte>, directive: nat -> Directive, n: nat): nat {
    if n == 0 then 0
    else
      var f := Offset(fmt, directive, n - 1);
      if f > Length(fmt) then f
      else
        var g := Stop(fmt, f);
        if g < Length(fmt) then directive(g).next else Length(fmt)
  }

  /** The formatter never passes the terminator. */
  ghost predicate NeverPasses(fmt: seq<byte>, directive: nat -> Directive) {
    forall n: nat :: Offset(fmt, directive, n) <= Length(fmt)
  }

  /** The directive that the formatter comes to after `n` others, if there is one, is complete. */
  ghost predicate CompleteAfter(fmt: seq<byte>, directive: nat -> Directive, complete: nat -> bool, n: nat) {
    var f := Offset(fmt, directive, n);
    f <= Length(fmt) && Stop(fmt, f) < Length(fmt) ==> complete(Stop(fmt, f))
  }

  /** Every directive that the formatter comes to is complete. */
  ghost predicate AllComplete(fmt: seq<byte>, directive: nat -> Directive, complete: nat -> bool) {
    forall n: nat :: CompleteAfter(fmt, directive, complete, n)
  }

  /** Directives end inside the format exactly if they are complete. */
  ghost predicate EndsAt(fmt: seq<byte>, directive: nat -> Directive, complete: nat -> bool, g: nat) {
    && g < directive(g).next && ProperField(directive(g).field)
    && (g < Length(fmt) ==> (complete(g) <==> directive(g).next <= Length(fmt)))
  }

  lemma OffsetStep(fmt: seq<byte>, directive: nat -> Directive, n: nat)
    requires Offset(fmt, directive, n) <= Length(fmt)
    ensures var g := Stop(fmt, Offset(fmt, directive, n));
      Offset(fmt, directive, n + 1) == if g < Length(fmt) then directive(g).next else Length(fmt)
  {
  }

  /** The walk never passes the terminator if and only if every directive it comes to is complete. */
  lemma NeverPassesIff(fmt: seq<byte>, directive: nat -> Directive, complete: nat -> bool)
    requires Length(fmt) < |fmt| && forall g: nat :: EndsAt(fmt, directive, complete, g)
    ensures NeverPasses(fmt, directive) <==> AllComplete(fmt, directive, complete)
  {
    if NeverPasses(fmt, directive) {
      forall n: nat ensures CompleteAfter(fmt, directive, complete, n) {
        OffsetStep(fmt, directive, n);
        assert Offset(fmt, directive, n + 1) <= Length(fmt);
        assert EndsAt(fmt, directive, complete, Stop(fmt, Offset(fmt, directive, n)));
      }
    }
    if AllComplete(fmt, directive, complete) {
      forall n: nat ensures Offset(fmt, directive, n) <= Length(fmt) {
        StaysBelow(fmt, directive, complete, n);
      }
    }
  }

  lemma {:induction false} StaysBelow(fmt: seq<byte>, directive: nat -> Directive, complete: nat -> bool, n: nat)
    requires Length(fmt) < |fmt| && (forall g: nat :: EndsAt(fmt, directive, complete, g))
    requires AllComplete(fmt, directive, complete)
    ensures Offset(fmt, directive, n) <= Length(fmt)
  {
    if n > 0 {
      StaysBelow(fmt, directive, complete, n - 1);
      OffsetStep(fmt, directive, n - 1);
      assert CompleteAfter(fmt, directive, complete, n - 1);
      assert EndsAt(fmt, directive, complete, Stop(fmt, Offset(fmt, directive, n - 1)));
    }
  }

  lemma {:induction false} InsideStays(fmt: seq<byte>, directive: nat -> Directive, n: nat)
    requires Length(fmt) < |fmt| && Inside(fmt, 0, directive)
    ensures Offset(fmt, directive, n) <= Length(fmt) && Inside(fmt, Offset(fmt, directive, n), directive)
  {
    if n > 0 {
      InsideStays(fmt, directive, n - 1);
      OffsetStep(fmt, directive, n - 1);
      AtEnd(fmt, directive);
    }
  }

  lemma AtEnd(fmt: seq<byte>, directive: nat -> Directive)
    requires Length(fmt) < |fmt|
    ensures Inside(fmt, Length(fmt), directive)
  {
  }

  lemma {:induction false} StaysInside(fmt: seq<byte>, directive: nat -> Directive, complete: nat -> bool, n: nat)
    requires Length(fmt) < |fmt| && (forall g: nat :: EndsAt(fmt, directive, complete, g))
    requires NeverPasses(fmt, directive)
    requires Offset(fmt, directive, n) <= Length(fmt)
    ensures Inside(fmt, Offset(fmt, directive, n), directive)
    decreases Length(fmt) - Offset(fmt, directive, n)
  {
    var g := Stop(fmt, Offset(fmt, directive, n));
    OffsetStep(fmt, directive, n);
    if g < Length(fmt) {
      assert EndsAt(fmt, directive, complete, g);
      assert Offset(fmt, directive, n + 1) <= Length(fmt);
      StaysInside(fmt, directive, complete, n + 1);
    }
  }

  /**
   What the formatter requires of its format holds if and only if the walk never passes the
   terminator, and that if and only if every directive it comes to is complete.
   */
  lemma InsideIff(fmt: seq<byte>, directive: nat -> Directive, complete: nat -> bool)
    requires Length(fmt) < |fmt| && forall g: nat :: EndsAt(fmt, directive, complete, g)
    ensures Inside(fmt, 0, directive) <==> NeverPasses(fmt, directive)
    ensures Inside(fmt, 0, directive) <==> AllComplete(fmt, directive, complete)
  {
    NeverPassesIff(fmt, directive, complete);
    if Inside(fmt, 0, directive) {
      forall n: nat ensures Offset(fmt, directive, n) <= Length(fmt) {
        InsideStays(fmt, directive, n);
      }
    }
    if NeverPasses(fmt, directive) {
      assert Offset(fmt, directive, 0) == 0;
      StaysInside(fmt, directive, complete, 0);
    }
  }

  /** Which directives have a conversion character. */
  ghost predicate HasConversions(complete: nat -> bool, fmt: seq<byte>, args: nat -> Arguments) {
    forall g: nat {:trigger DirectiveAt(fmt, g, args(g))} :: complete(g) <==> ParseSpec(fmt, g, args(g)).conversion != 0
  }

  lemma ParsedEnds(fmt: seq<byte>, args: nat -> Arguments, directive: nat -> Directive, complete: nat -> bool, g: nat)
    requires Length(fmt) < |fmt| && Agrees(directive, fmt, args) && HasConversions(complete, fmt, args)
    ensures EndsAt(fmt, directive, complete, g)
  {
    var spec := ParseSpec(fmt, g, args(g));
    assert directive(g) == DirectiveAt(fmt, g, args(g));
    assert SpecOk(fmt, g, spec);
    if g < Length(fmt) { SpecEnds(fmt, g, spec); }
  }

  /**
   For any format and arguments: the formatter stays inside its format if and only if every directive
   that it comes to has a conversion character.
   */
  lemma CompleteInside(fmt: seq<byte>, args: nat -> Arguments, directive: nat -> Directive, complete: nat -> bool)
    requires Length(fmt) < |fmt| && Agrees(directive, fmt, args) && HasConversions(complete, fmt, args)
    ensures Inside(fmt, 0, directive) <==> AllComplete(fmt, directive, complete)
    ensures Inside(fmt, 0, directive) <==> NeverPasses(fmt, directive)
  {
    forall g: nat ensures EndsAt(fmt, directive, complete, g) {
      ParsedEnds(fmt, args, directive, complete, g);
    }
    InsideIff(fmt, directive, complete);
  }
}
