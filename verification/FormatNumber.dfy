/** Spelling out unsigned numbers: digit tables, 10^8 chunks, digit pairs and comma grouping. */
module FormatNumber {
  import opened WordScan

  const COMMA: byte := 0x2c
  const LOWER: seq<byte> := [48, 49, 50, 51, 52, 53, 54, 55, 56, 57, 97, 98, 99, 100, 101, 102]
  const UPPER: seq<byte> := [48, 49, 50, 51, 52, 53, 54, 55, 56, 57, 65, 66, 67, 68, 69, 70]
  const WORD := 0x1_0000_0000_0000_0000
  const CHUNK := 100000000

  predicate IsRadix(radix: nat) {
    radix == 2 || radix == 8 || radix == 10 || radix == 16
  }

  /** Division, by repeated subtraction: `DivisionIs` relates it to the operators. */
  function Quotient(n: nat, radix: nat): (q: nat)
    requires IsRadix(radix)
    ensures (q == 0 <==> n < radix) && (n > 0 ==> q < n)
  {
    if n < radix then 0 else 1 + Quotient(n - radix, radix)
  }

  function Remainder(n: nat, radix: nat): (r: nat)
    requires IsRadix(radix)
    ensures r < radix && (n < radix ==> r == n)
  {
    if n < radix then n else Remainder(n - radix, radix)
  }

  lemma {:induction false} DivisionIs(n: nat, radix: nat)
    requires IsRadix(radix)
    ensures Quotient(n, radix) == n / radix && Remainder(n, radix) == n % radix
  {
    if n >= radix {
      DivisionIs(n - radix, radix);
      if radix == 10 {
      } else if radix == 16 {
      } else if radix == 8 {
      } else {
      }
    }
  }

  /** What is left of `n` after its `k` lowest digits. */
  function Shift(n: nat, radix: nat, k: nat): nat
    requires IsRadix(radix)
  {
    if k == 0 then n else Quotient(Shift(n, radix, k - 1), radix)
  }

  /** The `k` lowest digits of a number, most significant first. */
  function Low(n: nat, radix: nat, k: nat): (d: seq<nat>)
    requires IsRadix(radix)
    ensures |d| == k && forall i :: 0 <= i < k ==> d[i] < radix
  {
    if k == 0 then [] else [Remainder(Shift(n, radix, k - 1), radix)] + Low(n, radix, k - 1)
  }

  /** The digits of a number without leading zeros, most significant first. */
  function Digits(n: nat, radix: nat): (d: seq<nat>)
    requires IsRadix(radix)
    ensures |d| >= 1 && (forall i :: 0 <= i < |d| ==> d[i] < radix) && (d[0] == 0 ==> n == 0)
  {
    if n < radix then [n] else Digits(Quotient(n, radix), radix) + [Remainder(n, radix)]
  }

  /** `k` digits are all there is to `n`, without leading zeros. */
  predicate Canonical(n: nat, radix: nat, k: nat)
    requires IsRadix(radix)
  {
    k >= 1 && Shift(n, radix, k) == 0 && (k > 1 ==> Shift(n, radix, k - 1) != 0)
  }

  lemma {:induction false} ShiftFirst(n: nat, radix: nat, k: nat)
    requires IsRadix(radix)
    ensures Shift(Quotient(n, radix), radix, k) == Shift(n, radix, k + 1)
  {
    if k > 0 { ShiftFirst(n, radix, k - 1); }
  }

  lemma {:induction false} ShiftShift(n: nat, radix: nat, i: nat, j: nat)
    requires IsRadix(radix)
    ensures Shift(Shift(n, radix, i), radix, j) == Shift(n, radix, i + j)
  {
    if j > 0 { ShiftShift(n, radix, i, j - 1); }
  }

  lemma {:induction false} ShiftZero(n: nat, radix: nat, i: nat, j: nat)
    requires IsRadix(radix) && i <= j && Shift(n, radix, i) == 0
    ensures Shift(n, radix, j) == 0
    decreases j
  {
    if i < j { ShiftZero(n, radix, i, j - 1); }
  }

  lemma {:induction false} LowLast(n: nat, radix: nat, k: nat)
    requires IsRadix(radix)
    ensures Low(n, radix, k + 1) == Low(Quotient(n, radix), radix, k) + [Remainder(n, radix)]
  {
    if k > 0 {
      LowLast(n, radix, k - 1);
      ShiftFirst(n, radix, k - 1);
    }
  }

  /** The digits taken off one by one until nothing is left are the digits of the number. */
  lemma {:induction false} CanonicalDigits(n: nat, radix: nat, k: nat)
    requires IsRadix(radix) && Canonical(n, radix, k)
    ensures Low(n, radix, k) == Digits(n, radix)
  {
    if k == 1 {
      assert Quotient(n, radix) == Shift(n, radix, 1);
      assert Low(n, radix, 0) == [];
    } else {
      LowLast(n, radix, k - 1);
      ShiftFirst(n, radix, k - 1);
      ShiftFirst(n, radix, k - 2);
      NotLast(n, radix, k);
      CanonicalDigits(Quotient(n, radix), radix, k - 1);
    }
  }

  lemma NotLast(n: nat, radix: nat, k: nat)
    requires IsRadix(radix) && k > 1 && Shift(n, radix, k - 1) != 0
    ensures n >= radix
  {
    if n < radix {
      assert Shift(n, radix, 1) == Quotient(n, radix) == 0;
      ShiftZero(n, radix, 1, k - 1);
    }
  }

  /** How many digits have been written since the last comma, after `k` digits. */
  function Phase(k: nat, group: nat): (p: nat)
    requires group >= 1
    ensures p <= group && (p == 0 <==> k == 0)
  {
    if k == 0 then 0 else if Phase(k - 1, group) == group then 1 else Phase(k - 1, group) + 1
  }

  /** How digits are written: the table of characters, and the group size for commas, 0 for none. */
  datatype Style = Style(table: seq<byte>, group: nat)

  /** A table of sixteen digits, none of which is the comma. */
  predicate Table(table: seq<byte>) {
    |table| == 16 && COMMA !in table
  }

  lemma Tables()
    ensures Table(LOWER) && Table(UPPER)
  {
  }

  predicate Proper(st: Style) {
    Table(st.table) && (st.group == 0 || st.group == 3 || st.group == 4 || st.group == 8)
  }

  predicate CommaDue(st: Style, k: nat)
    requires Proper(st)
  {
    st.group > 0 && Phase(k, st.group) == st.group
  }

  /** The characters for a row of digits, grouped from the right. */
  function Spelled(d: seq<nat>, st: Style): seq<byte>
    requires Proper(st) && forall i :: 0 <= i < |d| ==> d[i] < 16
  {
    if d == [] then []
    else if CommaDue(st, |d| - 1) then [st.table[d[0]], COMMA] + Spelled(d[1..], st)
    else [st.table[d[0]]] + Spelled(d[1..], st)
  }

  /** The row of digits with a comma in front if another digit is to follow on the left. */
  function Separated(d: seq<nat>, st: Style): seq<byte>
    requires Proper(st) && forall i :: 0 <= i < |d| ==> d[i] < 16
  {
    if CommaDue(st, |d|) then [COMMA] + Spelled(d, st) else Spelled(d, st)
  }

  lemma SpelledMore(x: nat, d: seq<nat>, st: Style)
    requires Proper(st) && x < 16 && forall i :: 0 <= i < |d| ==> d[i] < 16
    ensures Spelled([x] + d, st) == [st.table[x]] + Separated(d, st)
  {
    assert ([x] + d)[1..] == d;
  }

  lemma ModStep(x: nat, group: nat)
    requires group == 3 || group == 4 || group == 8
    ensures (x + 1) % (group + 1) == if x % (group + 1) == group then 0 else x % (group + 1) + 1
  {
    if group == 3 {
    } else if group == 4 {
    } else {
    }
  }

  /** The length of a grouped row keeps step with the comma counter. */
  lemma {:induction false} GroupedLength(d: seq<nat>, st: Style)
    requires Proper(st) && st.group > 0 && forall i :: 0 <= i < |d| ==> d[i] < 16
    ensures |Spelled(d, st)| % (st.group + 1) == Phase(|d|, st.group)
  {
    if d != [] {
      GroupedLength(d[1..], st);
      ModStep(|Spelled(d[1..], st)|, st.group);
      ModStep(|Spelled(d[1..], st)| + 1, st.group);
    }
  }

  /** Commas stand at the places whose distance from the right end is `group` modulo `group` + 1. */
  predicate CommaPlace(distance: nat, group: nat) {
    distance % (group + 1) == group
  }

  predicate CommaAt(s: seq<byte>, group: nat, i: nat)
    requires i < |s|
  {
    s[i] == COMMA <==> CommaPlace(|s| - 1 - i, group)
  }

  lemma PlaceOfPhase(d: seq<nat>, st: Style)
    requires Proper(st) && st.group > 0 && forall i :: 0 <= i < |d| ==> d[i] < 16
    ensures CommaPlace(|Spelled(d, st)|, st.group) <==> CommaDue(st, |d|)
    ensures CommaDue(st, |d|) ==> !CommaPlace(|Spelled(d, st)| + 1, st.group)
  {
    GroupedLength(d, st);
    ModStep(|Spelled(d, st)|, st.group);
  }

  /** A row with one more character on the left, and perhaps a comma between. */
  function Joined(x: byte, due: bool, rest: seq<byte>): seq<byte> {
    if due then [x, COMMA] + rest else [x] + rest
  }

  lemma JoinedPlaces(x: byte, due: bool, rest: seq<byte>, group: nat, i: nat)
    requires i < |Joined(x, due, rest)| && x != COMMA && (CommaPlace(|rest|, group) <==> due)
    requires due ==> !CommaPlace(|rest| + 1, group)
    requires var head := |Joined(x, due, rest)| - |rest|; i >= head ==> CommaAt(rest, group, i - head)
    ensures CommaAt(Joined(x, due, rest), group, i)
  {
  }

  /** A character is a comma exactly if its distance from the right end is `group` modulo `group` + 1. */
  lemma {:induction false} CommaPlaces(d: seq<nat>, st: Style, i: nat)
    requires Proper(st) && st.group > 0 && (forall j :: 0 <= j < |d| ==> d[j] < 16) && i < |Spelled(d, st)|
    ensures CommaAt(Spelled(d, st), st.group, i)
  {
    var rest := d[1..];
    var head := |Spelled(d, st)| - |Spelled(rest, st)|;
    if i >= head { CommaPlaces(rest, st, i - head); }
    NoCommaDigit(st.table, d[0]);
    PlaceOfPhase(rest, st);
    JoinedPlaces(st.table[d[0]], CommaDue(st, |rest|), Spelled(rest, st), st.group, i);
  }

  lemma NoCommaDigit(table: seq<byte>, x: nat)
    requires Table(table) && x < 16
    ensures table[x] != COMMA
  {
  }

  /** Leaving the commas out gives the plain row of digits. */
  function Uncomma(s: seq<byte>): seq<byte> {
    if s == [] then [] else if s[0] == COMMA then Uncomma(s[1..]) else [s[0]] + Uncomma(s[1..])
  }

  lemma {:induction false} UncommaSpelled(d: seq<nat>, st: Style)
    requires Proper(st) && forall i :: 0 <= i < |d| ==> d[i] < 16
    ensures Uncomma(Spelled(d, st)) == Spelled(d, Style(st.table, 0))
  {
    if d != [] {
      UncommaSpelled(d[1..], st);
      NoCommaDigit(st.table, d[0]);
      var s, rest := Spelled(d, st), Spelled(d[1..], st);
      if CommaDue(st, |d| - 1) {
        assert s[1..][1..] == rest && s[1..][0] == COMMA;
      } else {
        assert s[1..] == rest;
      }
    }
  }

  /** Without commas there is one character per digit. */
  lemma {:induction false} PlainSpelled(d: seq<nat>, st: Style)
    requires Proper(st) && st.group == 0 && forall i :: 0 <= i < |d| ==> d[i] < 16
    ensures |Spelled(d, st)| == |d| && forall i :: 0 <= i < |d| ==> Spelled(d, st)[i] == st.table[d[i]]
  {
    if d != [] {
      PlainSpelled(d[1..], st);
      forall i | 0 <= i < |d| ensures Spelled(d, st)[i] == st.table[d[i]] {
        if i > 0 { assert Spelled(d, st)[i] == Spelled(d[1..], st)[i - 1]; }
      }
    }
  }
}
