/** The weighted round robin over the four run lists (findThreadPriorityList). */
module SchedulerRoundRobin {

  /** The priority value of each list, which is also how often it is picked in a round. */
  function Weight(i: nat): nat {
    if i == 0 then 1 else if i == 1 then 2 else if i == 2 then 4 else 8
  }

  /** The highest non-empty list that has iterations left, or -1. */
  function Highest(full: seq<bool>, iterations: seq<nat>): (r: int)
    requires |full| == |iterations| == 4
    ensures -1 <= r < 4
  {
    if full[3] && iterations[3] < 8 then 3
    else if full[2] && iterations[2] < 4 then 2
    else if full[1] && iterations[1] < 2 then 1
    else if full[0] && iterations[0] < 1 then 0
    else -1
  }

  /** The counters a call counts up from: all are cleared once list 0 has had its turn. */
  function Cleared(iterations: seq<nat>): (r: seq<nat>)
    requires |iterations| == 4
    ensures |r| == 4
  {
    if iterations[0] >= 1 then [0, 0, 0, 0] else iterations
  }

  /** The list that a call picks; -1 is an access below the array of lists. */
  function Pick(full: seq<bool>, iterations: seq<nat>): (r: int)
    requires |full| == |iterations| == 4
    ensures -1 <= r < 4
  {
    Highest(full, Cleared(iterations))
  }

  function Counted(full: seq<bool>, iterations: seq<nat>): (r: seq<nat>)
    requires |full| == |iterations| == 4
    ensures |r| == 4
  {
    var i := Pick(full, iterations);
    var cleared := Cleared(iterations);
    if i < 0 then cleared else cleared[i := cleared[i] + 1]
  }

  // ----- rounds

  function Share(full: seq<bool>, i: nat): nat
    requires |full| == 4 && i < 4
  {
    if full[i] then Weight(i) else 0
  }

  /** The total weight of the non-empty lists: the length of a round. */
  function Round(full: seq<bool>): (w: nat)
    requires |full| == 4
    ensures w <= 15 && (full[0] ==> 1 <= w)
  {
    Share(full, 3) + Share(full, 2) + Share(full, 1) + Share(full, 0)
  }

  /** The lists picked by `n` calls in a row. */
  function Picks(full: seq<bool>, iterations: seq<nat>, n: nat): (r: seq<int>)
    requires |full| == |iterations| == 4
    ensures |r| == n
    decreases n
  {
    if n == 0 then [] else [Pick(full, iterations)] + Picks(full, Counted(full, iterations), n - 1)
  }

  function Count(s: seq<int>, i: int): nat {
    if s == [] then 0 else (if s[0] == i then 1 else 0) + Count(s[1..], i)
  }

  function Min(a: int, b: int): int {
    if a < b then a else b
  }

  function Max(a: int, b: int): int {
    if a < b then b else a
  }

  /** What list `i` has been counted after the first `p` calls of a round: lists take their turns from 3 down. */
  function Turn(full: seq<bool>, i: nat, p: nat): nat
    requires |full| == 4 && i < 4
  {
    var before := (if i < 3 then Share(full, 3) else 0) + (if i < 2 then Share(full, 2) else 0)
                + (if i < 1 then Share(full, 1) else 0);
    Min(Max(p - before, 0), Share(full, i))
  }

  /** The counters at position `p` of a round. */
  function Position(full: seq<bool>, p: nat): (r: seq<nat>)
    requires |full| == 4
    ensures |r| == 4
  {
    [Turn(full, 0, p), Turn(full, 1, p), Turn(full, 2, p), Turn(full, 3, p)]
  }

  /** The position a call starts from: the end of a round is the beginning of the next one. */
  function From(full: seq<bool>, p: nat): nat
    requires |full| == 4
  {
    if p == Round(full) then 0 else p
  }

  /** A call moves on to the next position. */
  lemma Advance(full: seq<bool>, p: nat)
    requires |full| == 4 && full[0] && p <= Round(full)
    ensures Counted(full, Position(full, p)) == Position(full, From(full, p) + 1)
  {
    assert Position(full, 0) == [0, 0, 0, 0];
    assert Cleared(Position(full, p)) == Position(full, From(full, p));
  }

  /** A call picks the list whose turn it is. */
  lemma PicksTurn(full: seq<bool>, p: nat, i: nat)
    requires |full| == 4 && full[0] && p <= Round(full) && i < 4
    ensures var q := From(full, p);
      Turn(full, i, q + 1) == Turn(full, i, q) + if Pick(full, Position(full, p)) == i then 1 else 0
  {
    assert Position(full, 0) == [0, 0, 0, 0];
    assert Cleared(Position(full, p)) == Position(full, From(full, p));
  }

  /** The counters after `n` calls. */
  function CountedBy(full: seq<bool>, iterations: seq<nat>, n: nat): (r: seq<nat>)
    requires |full| == |iterations| == 4
    ensures |r| == 4
    decreases n
  {
    if n == 0 then iterations else CountedBy(full, Counted(full, iterations), n - 1)
  }

  lemma {:induction false} PicksAt(full: seq<bool>, iterations: seq<nat>, n: nat, k: nat)
    requires |full| == |iterations| == 4 && k < n
    ensures Picks(full, iterations, n)[k] == Pick(full, CountedBy(full, iterations, k))
    decreases n
  {
    if k > 0 {
      PicksAt(full, Counted(full, iterations), n - 1, k - 1);
    }
  }

  lemma {:induction false} CountedWithin(full: seq<bool>, p: nat, n: nat)
    requires |full| == 4 && full[0] && 1 <= n && p <= Round(full) && From(full, p) + n <= Round(full)
    ensures CountedBy(full, Position(full, p), n) == Position(full, From(full, p) + n)
    decreases n
  {
    Advance(full, p);
    if n == 1 {
      assert CountedBy(full, Position(full, p), n) == CountedBy(full, Counted(full, Position(full, p)), 0);
    } else {
      CountedWithin(full, From(full, p) + 1, n - 1);
    }
  }

  /** Where the counters stand after `k` calls within one round, and what the next call picks. */
  lemma PickWithin(full: seq<bool>, p: nat, k: nat, i: nat)
    requires |full| == 4 && full[0] && i < 4 && p <= Round(full) && From(full, p) + k < Round(full)
    ensures Turn(full, i, From(full, p) + k + 1) == Turn(full, i, From(full, p) + k)
      + if Pick(full, CountedBy(full, Position(full, p), k)) == i then 1 else 0
  {
    if k == 0 {
      PicksTurn(full, p, i);
    } else {
      CountedWithin(full, p, k);
      PicksTurn(full, From(full, p) + k, i);
    }
  }

  /** The pick at index `k` of a run within one round takes the turn at position `From(p) + k`. */
  lemma TurnAt(full: seq<bool>, p: nat, n: nat, k: nat, i: nat)
    requires |full| == 4 && full[0] && i < 4 && p <= Round(full) && From(full, p) + n <= Round(full) && k < n
    ensures Turn(full, i, From(full, p) + k + 1)
         == Turn(full, i, From(full, p) + k) + if Picks(full, Position(full, p), n)[k] == i then 1 else 0
  {
    PicksAt(full, Position(full, p), n, k);
    PickWithin(full, p, k, i);
  }

  lemma {:induction false} CountTelescopes(s: seq<int>, i: int, f: nat -> int, base: nat)
    requires forall k :: 0 <= k < |s| ==> f(base + k + 1) == f(base + k) + if s[k] == i then 1 else 0
    ensures Count(s, i) == f(base + |s|) - f(base)
    decreases |s|
  {
    if s != [] {
      assert f(base + 0 + 1) == f(base + 0) + if s[0] == i then 1 else 0;
      forall k | 0 <= k < |s[1..]| ensures f(base + 1 + k + 1) == f(base + 1 + k) + if s[1..][k] == i then 1 else 0 {
        assert f(base + (k + 1) + 1) == f(base + (k + 1)) + if s[k + 1] == i then 1 else 0;
      }
      CountTelescopes(s[1..], i, f, base + 1);
    }
  }

  /** How far the turn of list `i` is, by the position in a round. */
  function TurnOf(full: seq<bool>, i: nat): nat -> int
    requires |full| == 4 && i < 4
  {
    (k: nat) => Turn(full, i, k)
  }

  lemma TurnCounts(full: seq<bool>, p: nat, n: nat, i: nat, k: nat)
    requires |full| == 4 && full[0] && i < 4 && p <= Round(full) && From(full, p) + n <= Round(full) && k < n
    ensures var picks, f, base := Picks(full, Position(full, p), n), TurnOf(full, i), From(full, p);
      k < |picks| && f(base + k + 1) == f(base + k) + if picks[k] == i then 1 else 0
  {
    TurnAt(full, p, n, k, i);
  }

  /** A run of picks within one round counts each list by what its turn advances. */
  lemma WithinRound(full: seq<bool>, p: nat, n: nat, i: nat)
    requires |full| == 4 && full[0] && i < 4 && p <= Round(full) && From(full, p) + n <= Round(full)
    ensures Count(Picks(full, Position(full, p), n), i)
         == Turn(full, i, From(full, p) + n) - Turn(full, i, From(full, p))
  {
    var picks, f, base := Picks(full, Position(full, p), n), TurnOf(full, i), From(full, p);
    forall k: nat | k < |picks| ensures f(base + k + 1) == f(base + k) + if picks[k] == i then 1 else 0 {
      TurnCounts(full, p, n, i, k);
    }
    CountTelescopes(picks, i, f, base);
  }

  lemma WholeTurn(full: seq<bool>, i: nat)
    requires |full| == 4 && i < 4
    ensures Turn(full, i, 0) == 0 && Turn(full, i, Round(full)) == Share(full, i)
  {
  }

  lemma {:induction false} PicksSplit(full: seq<bool>, iterations: seq<nat>, m: nat, n: nat)
    requires |full| == |iterations| == 4
    ensures Picks(full, iterations, m + n) ==
      Picks(full, iterations, m) + Picks(full, CountedBy(full, iterations, m), n)
    decreases m
  {
    if m > 0 {
      PicksSplit(full, Counted(full, iterations), m - 1, n);
    }
  }

  lemma {:induction false} CountSum(a: seq<int>, b: seq<int>, i: int)
    ensures Count(a + b, i) == Count(a, i) + Count(b, i)
  {
    if a == [] {
      assert a + b == b;
    } else {
      assert (a + b)[1..] == a[1..] + b;
      CountSum(a[1..], b, i);
    }
  }

  /** A window across the end of a round counts what both parts count. */
  lemma AcrossRounds(full: seq<bool>, p: nat, w: nat, i: nat)
    requires |full| == 4 && full[0] && w == Round(full) && 0 < p < w && i < 4
    ensures Count(Picks(full, Position(full, p), w), i)
         == Count(Picks(full, Position(full, p), w - p), i) + Count(Picks(full, Position(full, w), p), i)
  {
    PicksSplit(full, Position(full, p), w - p, p);
    CountedWithin(full, p, w - p);
    CountSum(Picks(full, Position(full, p), w - p), Picks(full, Position(full, w), p), i);
  }

  lemma ShareWritten(full: seq<bool>, i: nat)
    requires |full| == 4 && i < 4
    ensures Share(full, i) == if full[i] then [1, 2, 4, 8][i] else 0
  {
  }

  lemma FairEnds(full: seq<bool>, p: nat, w: nat, i: nat)
    requires |full| == 4 && full[0] && w == Round(full) && i < 4 && (p == 0 || p == w)
    ensures Count(Picks(full, Position(full, p), w), i) == Turn(full, i, w) - Turn(full, i, 0)
  {
    WithinRound(full, p, w, i);
  }

  lemma FairMiddle(full: seq<bool>, p: nat, w: nat, i: nat)
    requires |full| == 4 && full[0] && w == Round(full) && i < 4 && 0 < p < w
    ensures Count(Picks(full, Position(full, p), w), i) == Turn(full, i, w) - Turn(full, i, 0)
  {
    AcrossRounds(full, p, w, i);
    WithinRound(full, p, w - p, i);
    WithinRound(full, w, p, i);
  }

  /** From any position, a round's worth of consecutive calls picks each list exactly as often as its weight. */
  lemma FairRound(full: seq<bool>, p: nat, i: nat)
    requires |full| == 4 && full[0] && p <= Round(full) && i < 4
    ensures Count(Picks(full, Position(full, p), Round(full)), i) == if full[i] then [1, 2, 4, 8][i] else 0
  {
    var w := Round(full);
    WholeTurn(full, i);
    ShareWritten(full, i);
    if p == 0 || p == w {
      FairEnds(full, p, w, i);
    } else {
      FairMiddle(full, p, w, i);
    }
  }

  /** The counters reached from cleared ones are always at some position of a round. */
  lemma {:induction false} Positioned(full: seq<bool>, p: nat, n: nat) returns (q: nat)
    requires |full| == 4 && full[0] && p <= Round(full)
    ensures q <= Round(full) && CountedBy(full, Position(full, p), n) == Position(full, q)
    decreases n
  {
    if n == 0 {
      q := p;
    } else {
      Advance(full, p);
      q := Positioned(full, From(full, p) + 1, n - 1);
    }
  }

  /** Any window of a round's length, after any number of calls from cleared counters. */
  lemma FairWindow(full: seq<bool>, n: nat, i: nat)
    requires |full| == 4 && full[0] && i < 4
    ensures Count(Picks(full, CountedBy(full, [0, 0, 0, 0], n), Round(full)), i)
         == if full[i] then [1, 2, 4, 8][i] else 0
  {
    assert Position(full, 0) == [0, 0, 0, 0];
    var q := Positioned(full, 0, n);
    FairRound(full, q, i);
  }

  /** The call indexes below the array exactly when list 0 is empty and no other list has a turn left. */
  lemma OutOfLists(full: seq<bool>, iterations: seq<nat>)
    requires |full| == |iterations| == 4
    ensures Pick(full, iterations) == -1 <==>
      !full[0] && forall i :: 1 <= i < 4 && full[i] ==> iterations[0] == 0 && iterations[i] >= Weight(i)
  {
    var others := forall i :: 1 <= i < 4 && full[i] ==> iterations[0] == 0 && iterations[i] >= Weight(i);
    if Pick(full, iterations) == -1 {
      forall i | 1 <= i < 4 && full[i] ensures iterations[0] == 0 && iterations[i] >= Weight(i) {
        assert i == 1 || i == 2 || i == 3;
      }
    } else if others {
      assert full[3] ==> iterations[3] >= Weight(3);
      assert full[2] ==> iterations[2] >= Weight(2);
      assert full[1] ==> iterations[1] >= Weight(1);
    }
  }

  /** It does so when the only list that is not empty has had its turns and list 0 has not been picked. */
  lemma OutOfListsWitness()
    ensures Pick([false, false, true, false], [0, 0, 4, 0]) == -1
  {
  }

  // ----- arbitrary counters

  function Unused(full: seq<bool>, iterations: seq<nat>, i: nat): nat
    requires |full| == |iterations| == 4 && i < 4
  {
    if full[i] then Max(Weight(i) - iterations[i], 0) else 0
  }

  /** How many calls at most until list 0 has had its turn. */
  function UntilIdle(full: seq<bool>, iterations: seq<nat>): (k: nat)
    requires |full| == |iterations| == 4 && full[0]
    ensures k <= Round(full)
  {
    if iterations[0] >= 1 then 0
    else Unused(full, iterations, 3) + Unused(full, iterations, 2) + Unused(full, iterations, 1) + 1
  }

  /** From any counters list 0 has had its turn after that many calls. */
  lemma {:induction false} IdleReached(full: seq<bool>, iterations: seq<nat>)
    requires |full| == |iterations| == 4 && full[0]
    ensures CountedBy(full, iterations, UntilIdle(full, iterations))[0] >= 1
    decreases UntilIdle(full, iterations)
  {
    if iterations[0] == 0 {
      var next := Counted(full, iterations);
      assert UntilIdle(full, next) < UntilIdle(full, iterations);
      IdleReached(full, next);
      if Pick(full, iterations) != 0 {
        assert UntilIdle(full, next) == UntilIdle(full, iterations) - 1;
      } else {
        assert UntilIdle(full, iterations) == 1;
      }
    }
  }

  /** Once list 0 has had its turn, the calls pick as from cleared counters. */
  lemma PicksCleared(full: seq<bool>, iterations: seq<nat>, n: nat)
    requires |full| == |iterations| == 4 && iterations[0] >= 1
    ensures Picks(full, iterations, n) == Picks(full, [0, 0, 0, 0], n)
  {
    if n > 0 {
      assert Counted(full, iterations) == Counted(full, [0, 0, 0, 0]);
    }
  }
}
