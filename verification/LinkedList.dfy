/**
 Doubly linked lists in memory. Memory maps addresses to cells, address 0 is the null pointer, and a
 list is reached through the addresses of its first and last cell.
 */
module LinkedList {

  datatype Cell<+D> = Cell(data: D, next: nat, prev: nat)
  datatype Ends = Ends(first: nat, last: nat)

  function Next(cells: seq<nat>, i: nat): nat {
    if i + 1 < |cells| then cells[i + 1] else 0
  }

  function Prev(cells: seq<nat>, i: nat): nat {
    if 0 < i <= |cells| then cells[i - 1] else 0
  }

  ghost predicate CellOk<D>(mem: map<nat, Cell<D>>, cells: seq<nat>, i: nat)
    requires i < |cells|
  {
    cells[i] != 0 && cells[i] in mem && mem[cells[i]].next == Next(cells, i) && mem[cells[i]].prev == Prev(cells, i)
  }

  /** No element occurs twice. The recursion keeps the solver from comparing all pairs. */
  predicate Distinct(s: seq<nat>) {
    s == [] || (s[0] !in s[1..] && Distinct(s[1..]))
  }

  ghost predicate PairsDiffer(s: seq<nat>) {
    forall i, j :: 0 <= i < j < |s| ==> s[i] != s[j]
  }

  lemma {:induction false} DistinctPairs(s: seq<nat>)
    ensures Distinct(s) <==> PairsDiffer(s)
  {
    if s != [] {
      DistinctPairs(s[1..]);
      if PairsDiffer(s) {
        assert forall i :: 0 <= i < |s[1..]| ==> s[1..][i] == s[i + 1];
        assert s[0] !in s[1..];
      }
      if Distinct(s) {
        forall i, j | 0 <= i < j < |s| ensures s[i] != s[j] {
          assert s[1..][j - 1] == s[j];
          if i > 0 { assert s[1..][i - 1] == s[i]; }
        }
      }
    }
  }

  lemma DistinctAppend(s: seq<nat>, x: nat)
    requires Distinct(s) && x !in s
    ensures Distinct(s + [x])
  {
    DistinctPairs(s);
    DistinctPairs(s + [x]);
  }

  lemma DistinctCut(s: seq<nat>, k: nat)
    requires Distinct(s) && k < |s|
    ensures Distinct(Cut(s, k)) && s[k] !in Cut(s, k)
  {
    DistinctPairs(s);
    DistinctPairs(Cut(s, k));
  }

  function EndsOf(cells: seq<nat>): Ends {
    if cells == [] then Ends(0, 0) else Ends(cells[0], cells[|cells| - 1])
  }

  /** Memory holds exactly the list with the given cell addresses between `ends`. */
  ghost predicate Linked<D>(mem: map<nat, Cell<D>>, ends: Ends, cells: seq<nat>) {
    && (forall i :: 0 <= i < |cells| ==> CellOk(mem, cells, i))
    && Distinct(cells)
    && ends == EndsOf(cells)
  }

  /** The list without the cell at index `k`. */
  function Cut<T>(s: seq<T>, k: nat): seq<T>
    requires k < |s|
  {
    s[..k] + s[k + 1..]
  }

  ghost predicate Same<D>(mem: map<nat, Cell<D>>, mem': map<nat, Cell<D>>, a: nat) {
    (a in mem' <==> a in mem) && (a in mem ==> mem'[a] == mem[a])
  }

  /** A list is untouched by changes to other cells. */
  lemma LinkedFrame<D>(mem: map<nat, Cell<D>>, mem': map<nat, Cell<D>>, ends: Ends, cells: seq<nat>)
    requires Linked(mem, ends, cells)
    requires forall i :: 0 <= i < |cells| ==> Same(mem, mem', cells[i])
    ensures Linked(mem', ends, cells)
  {
    forall i | 0 <= i < |cells| ensures CellOk(mem', cells, i) {
      assert CellOk(mem, cells, i) && Same(mem, mem', cells[i]);
    }
  }

  lemma {:induction false} LinkedPrefix<D>(mem: map<nat, Cell<D>>, ends: Ends, s: seq<nat>, t: seq<nat>, n: nat)
    requires Linked(mem, ends, s) && Linked(mem, ends, t) && n <= |s|
    ensures n <= |t| && s[..n] == t[..n]
  {
    if n > 0 {
      LinkedPrefix(mem, ends, s, t, n - 1);
      assert CellOk(mem, s, n - 1);
      if n > 1 { assert CellOk(mem, s, n - 2) && CellOk(mem, t, n - 2) && s[..n - 1][n - 2] == t[..n - 1][n - 2]; }
      assert n <= |t|;
      assert s[..n] == s[..n - 1] + [s[n - 1]] && t[..n] == t[..n - 1] + [t[n - 1]];
    }
  }

  /** Memory determines the list. */
  lemma LinkedUnique<D>(mem: map<nat, Cell<D>>, ends: Ends, s: seq<nat>, t: seq<nat>)
    requires Linked(mem, ends, s) && Linked(mem, ends, t)
    ensures s == t
  {
    LinkedPrefix(mem, ends, s, t, |s|);
    LinkedPrefix(mem, ends, t, s, |t|);
  }

  /** What memory holds at `b` after a cell with `data` was appended at address `a`. */
  function AppendedAt<D>(mem: map<nat, Cell<D>>, last: nat, a: nat, data: D, b: nat): Cell<D>
    requires b == a || b in mem
  {
    if b == a then Cell(data, 0, last) else if last != 0 && b == last then mem[b].(next := a) else mem[b]
  }

  lemma AppendLinked<D>(mem: map<nat, Cell<D>>, mem': map<nat, Cell<D>>, ends: Ends, a: nat, data: D, cells: seq<nat>)
    requires Linked(mem, ends, cells) && a != 0 && a !in mem
    requires mem'.Keys == mem.Keys + {a}
    requires forall b :: b in mem' ==> mem'[b] == AppendedAt(mem, ends.last, a, data, b)
    ensures Linked(mem', Ends(if ends.first == 0 then a else ends.first, a), cells + [a])
  {
    DistinctPairs(cells);
    var all := cells + [a];
    forall i | 0 <= i < |all| ensures CellOk(mem', all, i) {
      if i < |cells| { assert CellOk(mem, cells, i); }
    }
    if cells != [] { assert CellOk(mem, cells, 0); }
    forall i | 0 <= i < |cells| ensures cells[i] != a {
      assert CellOk(mem, cells, i);
    }
    DistinctAppend(cells, a);
  }

  /** Puts a new cell at address `a` at the end of the list. */
  method Append<D>(mem: map<nat, Cell<D>>, ends: Ends, a: nat, data: D, ghost cells: seq<nat>)
    returns (mem': map<nat, Cell<D>>, ends': Ends)
    requires Linked(mem, ends, cells) && a != 0 && a !in mem
    ensures Linked(mem', ends', cells + [a]) && ends' == Ends(if ends.first == 0 then a else ends.first, a)
    ensures mem'.Keys == mem.Keys + {a}
    ensures forall b :: b in mem' ==> mem'[b] == AppendedAt(mem, ends.last, a, data, b)
  {
    assert ends.last != 0 ==> CellOk(mem, cells, |cells| - 1);
    mem' := mem[a := Cell(data, 0, 0)];
    ends' := ends;
    if ends'.last != 0 {
      mem' := mem'[ends'.last := mem'[ends'.last].(next := a)];
    }
    if ends'.first == 0 {
      ends' := ends'.(first := a);
    }
    mem' := mem'[a := mem'[a].(prev := ends'.last)];
    ends' := ends'.(last := a);
    AppendLinked(mem, mem', ends, a, data, cells);
  }

  /** What memory holds at `b` after cell `c` at address `a` was taken out of its list. */
  function UnlinkedAt<D>(mem: map<nat, Cell<D>>, c: Cell<D>, b: nat): Cell<D>
    requires b in mem
  {
    var m := if c.next != 0 && b == c.next then mem[b].(prev := c.prev) else mem[b];
    if c.prev != 0 && b == c.prev then m.(next := c.next) else m
  }

  function EndsWithout<D>(ends: Ends, a: nat, c: Cell<D>): Ends {
    Ends(if ends.first == a then c.next else ends.first, if ends.last == a then c.prev else ends.last)
  }

  lemma UnlinkCell<D>(mem: map<nat, Cell<D>>, mem': map<nat, Cell<D>>, ends: Ends, cells: seq<nat>, k: nat, i: nat)
    requires Linked(mem, ends, cells) && k < |cells| && i < |cells| - 1
    requires mem'.Keys == mem.Keys && CellOk(mem, cells, k)
    requires forall b :: b in mem ==> mem'[b] == UnlinkedAt(mem, mem[cells[k]], b)
    ensures CellOk(mem', Cut(cells, k), i)
  {
    DistinctPairs(cells);
    var j := if i < k then i else i + 1;
    assert CellOk(mem, cells, j);
    assert Cut(cells, k)[i] == cells[j];
    if k + 1 < |cells| { assert CellOk(mem, cells, k + 1); }
    if k > 0 { assert CellOk(mem, cells, k - 1); }
  }

  lemma UnlinkEnds<D>(mem: map<nat, Cell<D>>, ends: Ends, cells: seq<nat>, k: nat)
    requires Linked(mem, ends, cells) && k < |cells| && CellOk(mem, cells, k)
    ensures Distinct(Cut(cells, k))
    ensures EndsWithout(ends, cells[k], mem[cells[k]]) == EndsOf(Cut(cells, k))
  {
    DistinctPairs(cells);
    DistinctCut(cells, k);
  }

  /** Memory after the neighbours of the cell at `a` were linked to each other. */
  function Unlinked<D>(mem: map<nat, Cell<D>>, a: nat): map<nat, Cell<D>>
    requires a in mem
  {
    var c := mem[a];
    var m := if c.next != 0 && c.next in mem then mem[c.next := mem[c.next].(prev := c.prev)] else mem;
    if c.prev != 0 && c.prev in m then m[c.prev := m[c.prev].(next := c.next)] else m
  }

  lemma UnlinkedCells<D>(mem: map<nat, Cell<D>>, a: nat)
    requires a in mem
    ensures Unlinked(mem, a).Keys == mem.Keys
    ensures forall b :: b in mem ==> Unlinked(mem, a)[b] == UnlinkedAt(mem, mem[a], b)
  {
  }

  /** The list without cell `k`, whose own memory may then be given up. */
  lemma UnlinkedLinked<D>(mem: map<nat, Cell<D>>, ends: Ends, cells: seq<nat>, k: nat)
    requires Linked(mem, ends, cells) && k < |cells| && CellOk(mem, cells, k)
    ensures Linked(Unlinked(mem, cells[k]), EndsWithout(ends, cells[k], mem[cells[k]]), Cut(cells, k))
    ensures Linked(Unlinked(mem, cells[k]) - {cells[k]}, EndsWithout(ends, cells[k], mem[cells[k]]), Cut(cells, k))
  {
    var a, rest := cells[k], Cut(cells, k);
    UnlinkedCells(mem, a);
    UnlinkEnds(mem, ends, cells, k);
    DistinctCut(cells, k);
    forall i | 0 <= i < |rest| ensures CellOk(Unlinked(mem, a), rest, i) && CellOk(Unlinked(mem, a) - {a}, rest, i) {
      UnlinkCell(mem, Unlinked(mem, a), ends, cells, k, i);
      assert rest[i] != a;
    }
  }

  /** Takes the cell at index `k` out of the list, leaving the cell itself in memory. */
  method Unlink<D>(mem: map<nat, Cell<D>>, ends: Ends, a: nat, ghost cells: seq<nat>, ghost k: nat)
    returns (mem': map<nat, Cell<D>>, ends': Ends)
    requires Linked(mem, ends, cells) && k < |cells| && cells[k] == a && a in mem
    ensures Linked(mem', ends', Cut(cells, k)) && ends' == EndsWithout(ends, a, mem[a])
    ensures mem'.Keys == mem.Keys
    ensures forall b :: b in mem ==> mem'[b] == UnlinkedAt(mem, mem[a], b)
  {
    mem' := mem;
    ends' := ends;
    var c := mem[a];
    assert CellOk(mem, cells, k);
    if c.next != 0 {
      assert CellOk(mem, cells, k + 1);
      mem' := mem'[c.next := mem'[c.next].(prev := c.prev)];
    }
    if c.prev != 0 {
      assert CellOk(mem, cells, k - 1);
      mem' := mem'[c.prev := mem'[c.prev].(next := c.next)];
    }
    if ends'.first == a {
      ends' := ends'.(first := c.next);
    }
    if ends'.last == a {
      ends' := ends'.(last := c.prev);
    }
    UnlinkEnds(mem, ends, cells, k);
    forall i | 0 <= i < |Cut(cells, k)| ensures CellOk(mem', Cut(cells, k), i) {
      UnlinkCell(mem, mem', ends, cells, k, i);
    }
  }

  lemma {:induction false} FreshExists(keys: set<nat>) returns (n: nat)
    ensures n != 0 && forall x :: x in keys ==> x < n
  {
    if keys == {} {
      n := 1;
    } else {
      var y :| y in keys;
      var m := FreshExists(keys - {y});
      n := if y < m then m else y + 1;
      forall x | x in keys ensures x < n {
        if x != y { assert x in keys - {y}; }
      }
    }
  }

  /** Some address that memory does not use. */
  method FreshAddress<D>(mem: map<nat, Cell<D>>) returns (a: nat)
    ensures a != 0 && a !in mem
  {
    ghost var n := FreshExists(mem.Keys);
    assert n !in mem;
    a :| a != 0 && a !in mem;
  }
}
