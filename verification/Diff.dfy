/** The line diff of the test runner: a greedy walk guided by a bounded look-ahead. */
module Diff {

  type Lines = seq<string>

  /** Line `i` of one text stands against line `j` of the other. */
  datatype Pair = Pair(i: nat, j: nat)

  /** Pairs of matching lines in increasing order on both sides, from `(i, j)` on. */
  ghost predicate Aligned(a: Lines, b: Lines, comp: (string, string) -> bool, m: seq<Pair>, i: int, j: int)
  {
    && (forall k :: 0 <= k < |m| ==> i <= m[k].i < |a| && j <= m[k].j < |b| && comp(a[m[k].i], b[m[k].j]))
    && (forall k, l :: 0 <= k < l < |m| ==> m[k].i < m[l].i && m[k].j < m[l].j)
  }

  /** How many lines match from `(i, j)` on before the first that does not. */
  function MatchLength(a: Lines, b: Lines, comp: (string, string) -> bool, i: nat, j: nat): nat
    decreases |a| - i
  {
    if i < |a| && j < |b| && comp(a[i], b[j]) then 1 + MatchLength(a, b, comp, i + 1, j + 1) else 0
  }

  function Max(x: nat, y: nat): nat { if x > y then x else y }

  /** The look-ahead as a value: the lines that match at once, and the most that match behind a skip on one
      side, as far as the budget reaches; for skips on the first side it is halved. */
  function Ahead(a: Lines, b: Lines, comp: (string, string) -> bool, i: nat, j: nat, budget: real): nat
    decreases budget
  {
    var equal := MatchLength(a, b, comp, i, j);
    var steps := budget - equal as real - 1.0;
    if steps <= 0.0 then equal
    else
      var i', j' := i + equal, j + equal;
      equal + Max(SkipFirst(a, b, comp, i' + 1, j', steps / 2.0), SkipSecond(a, b, comp, i', j' + 1, steps))
  }

  function SkipFirst(a: Lines, b: Lines, comp: (string, string) -> bool, i: nat, j: nat, st: real): nat
    decreases st
  {
    if i < |a| && st > 0.0 then Max(Ahead(a, b, comp, i, j, st - 1.0), SkipFirst(a, b, comp, i + 1, j, st - 1.0)) else 0
  }

  function SkipSecond(a: Lines, b: Lines, comp: (string, string) -> bool, i: nat, j: nat, st: real): nat
    decreases st
  {
    if j < |b| && st > 0.0 then Max(Ahead(a, b, comp, i, j, st - 1.0), SkipSecond(a, b, comp, i, j + 1, st - 1.0)) else 0
  }

  /** count_array_diff: the length of some alignment from `(i, j)` on. The number of steps is halved
      without rounding, as the source does. */
  method CountArrayDiff(a: Lines, b: Lines, comp: (string, string) -> bool, i: nat, j: nat, budget: real)
    returns (equal: nat, ghost m: seq<Pair>)
    ensures equal == Ahead(a, b, comp, i, j, budget) && |m| == equal && Aligned(a, b, comp, m, i, j)
    ensures equal > 0 ==> equal <= |a| - i && equal <= |b| - j
    decreases budget
  {
    var i', j';
    i', j', equal, m := MatchRun(a, b, comp, i, j);
    var steps := budget - equal as real - 1.0;
    if steps > 0.0 {
      var eq1, m1 := CountSkips(a, b, comp, i', j', steps / 2.0, true);
      var eq2, m2 := CountSkips(a, b, comp, i', j', steps, false);
      if eq1 > eq2 {
        Joined(a, b, comp, m, m1, i, j, i', j');
        equal, m := equal + eq1, m + m1;
      } else if eq2 > 0 {
        Joined(a, b, comp, m, m2, i, j, i', j');
        equal, m := equal + eq2, m + m2;
      }
    }
    AlignedLength(a, b, comp, m, i, j);
  }

  /** Equal lines are counted as long as they come. */
  method MatchRun(a: Lines, b: Lines, comp: (string, string) -> bool, i: nat, j: nat)
    returns (i': nat, j': nat, equal: nat, ghost m: seq<Pair>)
    ensures i' == i + equal && j' == j + equal && equal == MatchLength(a, b, comp, i, j)
    ensures |m| == equal && Aligned(a, b, comp, m, i, j)
    ensures forall k :: 0 <= k < |m| ==> m[k].i < i' && m[k].j < j'
  {
    i', j', equal, m := i, j, 0, [];
    while i' < |a| && j' < |b| && comp(a[i'], b[j'])
      invariant i' == i + equal && j' == j + equal && |m| == equal
      invariant MatchLength(a, b, comp, i, j) == equal + MatchLength(a, b, comp, i', j')
      invariant Aligned(a, b, comp, m, i, j) && forall k :: 0 <= k < |m| ==> m[k].i < i' && m[k].j < j'
      decreases |a| - i'
    {
      m := m + [Pair(i', j')];
      i', j', equal := i' + 1, j' + 1, equal + 1;
    }
  }

  lemma {:induction false} AlignedLength(a: Lines, b: Lines, comp: (string, string) -> bool, m: seq<Pair>, i: int, j: int)
    requires Aligned(a, b, comp, m, i, j)
    ensures |m| > 0 ==> |m| <= |a| - i && |m| <= |b| - j
    decreases |m|
  {
    if |m| > 1 {
      var n := m[1..];
      assert m[0].i < m[1].i && m[0].j < m[1].j && i <= m[0].i && j <= m[0].j;
      forall k | 0 <= k < |n|
        ensures n[k].i >= i + 1 && n[k].j >= j + 1
      {
        if k > 0 { assert m[1].i < m[k + 1].i && m[1].j < m[k + 1].j; }
      }
      AlignedLength(a, b, comp, n, i + 1, j + 1);
    }
  }

  lemma Joined(a: Lines, b: Lines, comp: (string, string) -> bool, m: seq<Pair>, n: seq<Pair>, i: int, j: int, i': int, j': int)
    requires Aligned(a, b, comp, m, i, j) && Aligned(a, b, comp, n, i', j') && i <= i' && j <= j'
    requires forall k :: 0 <= k < |m| ==> m[k].i < i' && m[k].j < j'
    ensures Aligned(a, b, comp, m + n, i, j)
  {
  }

  /** The two loops of the look-ahead: the best count after skipping lines on one side. */
  method CountSkips(a: Lines, b: Lines, comp: (string, string) -> bool, i: nat, j: nat, budget: real, first: bool)
    returns (best: nat, ghost m: seq<Pair>)
    ensures |m| == best && Aligned(a, b, comp, m, i, j)
    ensures best == if first then SkipFirst(a, b, comp, i + 1, j, budget) else SkipSecond(a, b, comp, i, j + 1, budget)
    decreases budget
  {
    hide Ahead;
    var st := budget;
    best, m := 0, [];
    var ofs := if first then i + 1 else j + 1;
    while ofs < (if first then |a| else |b|) && st > 0.0
      invariant st <= budget && ofs > (if first then i else j) && |m| == best && Aligned(a, b, comp, m, i, j)
      invariant if first then SkipFirst(a, b, comp, i + 1, j, budget) == Max(best, SkipFirst(a, b, comp, ofs, j, st))
                else SkipSecond(a, b, comp, i, j + 1, budget) == Max(best, SkipSecond(a, b, comp, i, ofs, st))
      decreases (if first then |a| else |b|) - ofs
    {
      st := st - 1.0;
      var eq, m' := CountArrayDiff(a, b, comp, if first then ofs else i, if first then j else ofs, st);
      if eq > best {
        best, m := eq, m';
      }
      ofs := ofs + 1;
    }
  }

  // ---------- the diff ----------

  /** A line of the output: number and text of a line only in the first or only in the second text. */
  datatype Line = Minus(n: nat, text: string) | Plus(n: nat, text: string)

  function Minuses(d: seq<Line>): seq<nat>
  {
    if d == [] then [] else Minuses(d[..|d| - 1]) + (if d[|d| - 1].Minus? then [d[|d| - 1].n] else [])
  }

  function Pluses(d: seq<Line>): seq<nat>
  {
    if d == [] then [] else Pluses(d[..|d| - 1]) + (if d[|d| - 1].Plus? then [d[|d| - 1].n] else [])
  }

  lemma Emit(d: seq<Line>, l: Line)
    ensures Minuses(d + [l]) == Minuses(d) + (if l.Minus? then [l.n] else [])
    ensures Pluses(d + [l]) == Pluses(d) + (if l.Plus? then [l.n] else [])
  {
    assert (d + [l])[..|d|] == d;
  }

  ghost predicate Increasing(s: seq<nat>) { forall k, l :: 0 <= k < l < |s| ==> s[k] < s[l] }

  /** Of the first `n` lines exactly those in `marked` have no partner in `m`. */
  ghost predicate Marks1(m: seq<Pair>, marked: seq<nat>, n: int)
  {
    && Increasing(marked) && (forall k :: 0 <= k < |marked| ==> marked[k] < n)
    && forall i :: 0 <= i < n ==> (i in marked <==> forall k :: 0 <= k < |m| ==> m[k].i != i)
  }

  ghost predicate Marks2(m: seq<Pair>, marked: seq<nat>, n: int)
  {
    && Increasing(marked) && (forall k :: 0 <= k < |marked| ==> marked[k] < n)
    && forall j :: 0 <= j < n ==> (j in marked <==> forall k :: 0 <= k < |m| ==> m[k].j != j)
  }

  /** The texts of the output are those of the lines it numbers. */
  ghost predicate Texts(w: Lines, b: Lines, d: seq<Line>)
  {
    forall k :: 0 <= k < |d| ==>
      if d[k].Minus? then d[k].n < |w| && d[k].text == w[d[k].n] else d[k].n < |b| && d[k].text == b[d[k].n]
  }

  ghost predicate AllMatch(a: Lines, b: Lines, comp: (string, string) -> bool)
  {
    |a| == |b| && forall k :: 0 <= k < |a| ==> comp(a[k], b[k])
  }

  /** generate_array_diff. There is an alignment `m` of the two texts such that the output lists, each
      once and in order, exactly the lines of either text that have no partner: what is not marked
      '-' matches, pairwise and in order, what is not marked '+'. */
  method GenerateArrayDiff(a: Lines, b: Lines, comp: (string, string) -> bool, w: Lines)
    returns (diff: seq<Line>, ghost m: seq<Pair>, ghost end: Stop)
    requires |w| == |a|
    ensures m == Greedy(a, b, comp, 0, 0) && Aligned(a, b, comp, m, 0, 0) && Texts(w, b, diff)
    ensures Marks1(m, Minuses(diff), |a|) && Marks2(m, Pluses(diff), |b|)
    ensures AllMatch(a, b, comp) ==> diff == []
    ensures Listed(a, b, end)
    ensures diff == Interleaved(w, b, end.old1, end.old2, -2, -2) + Rest1(w, end.i, |w|) + Rest2(b, end.j, |b|)
  {
    hide Minuses, Pluses, Interleaved, Greedy, Aligned;
    var i, j, old1, old2;
    i, j, old1, old2, m := Walk(a, b, comp);
    diff := Merge(w, b, old1, old2);
    end := Stop(old1, old2, i, j);
    ghost var i0, j0, d0 := i, j, diff;
    assert d0 + Rest1(w, i, i) == d0;
    while i < |a|
      invariant AllMatch(a, b, comp) ==> diff == [] && i == |a| && j == |b|
      invariant i0 <= i <= |a| && Texts(w, b, diff) && Pluses(diff) == old2 && Marks1(m, Minuses(diff), i)
      invariant diff == d0 + Rest1(w, i0, i) && forall k :: 0 <= k < |m| ==> m[k].i < i0
    {
      Emit(diff, Minus(i, w[i]));
      MarkNext1(m, Minuses(diff), i);
      RestNext(d0, w, b, i0, i, j0, j);
      diff := diff + [Minus(i, w[i])];
      i := i + 1;
    }
    ghost var d1 := diff;
    assert d1 + Rest2(b, j, j) == d1;
    while j < |b|
      invariant AllMatch(a, b, comp) ==> diff == [] && j == |b|
      invariant j0 <= j <= |b| && Texts(w, b, diff) && Marks1(m, Minuses(diff), |a|) && Marks2(m, Pluses(diff), j)
      invariant diff == d1 + Rest2(b, j0, j) && forall k :: 0 <= k < |m| ==> m[k].j < j0
    {
      Emit(diff, Plus(j, b[j]));
      MarkNext2(m, Pluses(diff), j);
      RestNext(d1, w, b, i0, i, j0, j);
      diff := diff + [Plus(j, b[j])];
      j := j + 1;
    }
  }

  /** Where the walk stops: what it has set aside, and how far it has come on either side. */
  datatype Stop = Stop(old1: seq<nat>, old2: seq<nat>, i: nat, j: nat)

  ghost predicate Listed(a: Lines, b: Lines, x: Stop)
  {
    && x.i <= |a| && x.j <= |b| && (x.i == |a| || x.j == |b|)
    && (forall k :: 0 <= k < |x.old1| ==> x.old1[k] < x.i) && (forall k :: 0 <= k < |x.old2| ==> x.old2[k] < x.j)
  }

  /** The lines of the first text, or of the second, from one number up to another. */
  function Rest1(w: Lines, i: nat, n: nat): seq<Line>
    requires i <= n <= |w|
  {
    seq(n - i, k requires 0 <= k < n - i => Minus(i + k, w[i + k]))
  }

  function Rest2(b: Lines, j: nat, n: nat): seq<Line>
    requires j <= n <= |b|
  {
    seq(n - j, k requires 0 <= k < n - j => Plus(j + k, b[j + k]))
  }

  lemma RestNext(d: seq<Line>, w: Lines, b: Lines, i0: nat, i: nat, j0: nat, j: nat)
    requires i0 <= i <= |w| && j0 <= j <= |b|
    ensures i < |w| ==> d + Rest1(w, i0, i + 1) == d + Rest1(w, i0, i) + [Minus(i, w[i])]
    ensures j < |b| ==> d + Rest2(b, j0, j + 1) == d + Rest2(b, j0, j) + [Plus(j, b[j])]
  {
    if i < |w| { assert Rest1(w, i0, i + 1) == Rest1(w, i0, i) + [Minus(i, w[i])]; }
    if j < |b| { assert Rest2(b, j0, j + 1) == Rest2(b, j0, j) + [Plus(j, b[j])]; }
  }

  lemma MarkNext1(m: seq<Pair>, marked: seq<nat>, i: nat)
    requires Marks1(m, marked, i) && forall k :: 0 <= k < |m| ==> m[k].i != i
    ensures Marks1(m, marked + [i], i + 1)
  {
    forall x | 0 <= x < i + 1 ensures x in marked + [i] <==> x in marked || x == i { }
  }

  lemma MarkNext2(m: seq<Pair>, marked: seq<nat>, j: nat)
    requires Marks2(m, marked, j) && forall k :: 0 <= k < |m| ==> m[k].j != j
    ensures Marks2(m, marked + [j], j + 1)
  {
    forall x | 0 <= x < j + 1 ensures x in marked + [j] <==> x in marked || x == j { }
  }

  lemma MatchNext(m: seq<Pair>, o1: seq<nat>, o2: seq<nat>, i: nat, j: nat)
    requires Marks1(m, o1, i) && Marks2(m, o2, j) && forall k :: 0 <= k < |m| ==> m[k].i < i && m[k].j < j
    ensures Marks1(m + [Pair(i, j)], o1, i + 1) && Marks2(m + [Pair(i, j)], o2, j + 1)
  {
    var m' := m + [Pair(i, j)];
    assert m'[|m|] == Pair(i, j);
    forall k | 0 <= k < |m'| ensures m'[k] == if k < |m| then m[k] else Pair(i, j) { }
    forall x | 0 <= x < i + 1 ensures x in o1 <==> forall k :: 0 <= k < |m'| ==> m'[k].i != x {
      if k :| 0 <= k < |m| && m[k].i == x { assert m'[k].i == x; }
    }
    forall x | 0 <= x < j + 1 ensures x in o2 <==> forall k :: 0 <= k < |m'| ==> m'[k].j != x {
      if k :| 0 <= k < |m| && m[k].j == x { assert m'[k].j == x; }
    }
  }

  /** The lines that the look-ahead from a mismatch promises on either side, with a budget of ten. */
  function After1(a: Lines, b: Lines, comp: (string, string) -> bool, i: nat, j: nat): nat { Ahead(a, b, comp, i + 1, j, 10.0) }
  function After2(a: Lines, b: Lines, comp: (string, string) -> bool, i: nat, j: nat): nat { Ahead(a, b, comp, i, j + 1, 10.0) }

  /** The pairs of the greedy walk from `(i, j)` on: a mismatch drops the line of the first text if that
      promises more, else that of the second if it promises anything, else both. */
  function Greedy(a: Lines, b: Lines, comp: (string, string) -> bool, i: nat, j: nat): seq<Pair>
    decreases |a| - i + |b| - j
  {
    if i >= |a| || j >= |b| then []
    else if comp(a[i], b[j]) then [Pair(i, j)] + Greedy(a, b, comp, i + 1, j + 1)
    else if After1(a, b, comp, i, j) > After2(a, b, comp, i, j) then Greedy(a, b, comp, i + 1, j)
    else if After2(a, b, comp, i, j) > 0 then Greedy(a, b, comp, i, j + 1)
    else Greedy(a, b, comp, i + 1, j + 1)
  }

  /** The main loop: matching lines are passed, the others are set aside on one side or on both,
      as the look-ahead decides. */
  method Walk(a: Lines, b: Lines, comp: (string, string) -> bool)
    returns (i: nat, j: nat, old1: seq<nat>, old2: seq<nat>, ghost m: seq<Pair>)
    ensures i <= |a| && j <= |b| && (i == |a| || j == |b|) && Aligned(a, b, comp, m, 0, 0)
    ensures m == Greedy(a, b, comp, 0, 0)
    ensures AllMatch(a, b, comp) ==> i == |a| && j == |b| && old1 == [] && old2 == []
    ensures Marks1(m, old1, i) && Marks2(m, old2, j) && forall k :: 0 <= k < |m| ==> m[k].i < i && m[k].j < j
  {
    hide Aligned, Marks1, Marks2;
    i, j, old1, old2, m := 0, 0, [], [], [];
    NoMarks(a, b, comp);
    while i < |a| && j < |b|
      invariant i <= |a| && j <= |b| && Aligned(a, b, comp, m, 0, 0)
      invariant m + Greedy(a, b, comp, i, j) == Greedy(a, b, comp, 0, 0)
      invariant AllMatch(a, b, comp) ==> i == j && old1 == [] && old2 == []
      invariant Marks1(m, old1, i) && Marks2(m, old2, j) && forall k :: 0 <= k < |m| ==> m[k].i < i && m[k].j < j
      decreases |a| - i + |b| - j
    {
      if comp(a[i], b[j]) {
        MatchNext(m, old1, old2, i, j);
        PassNext(a, b, comp, m, i, j);
        Shifted(m, Pair(i, j), Greedy(a, b, comp, i + 1, j + 1));
        m := m + [Pair(i, j)];
        i, j := i + 1, j + 1;
      } else {
        var drop1, drop2 := LookAhead(a, b, comp, i, j);
        if drop1 {
          MarkNext1(m, old1, i);
          old1, i := old1 + [i], i + 1;
        }
        if drop2 {
          MarkNext2(m, old2, j);
          old2, j := old2 + [j], j + 1;
        }
      }
    }
  }

  lemma NoMarks(a: Lines, b: Lines, comp: (string, string) -> bool)
    ensures Aligned(a, b, comp, [], 0, 0) && Marks1([], [], 0) && Marks2([], [], 0)
  {
  }

  lemma Shifted(m: seq<Pair>, p: Pair, rest: seq<Pair>)
    ensures m + ([p] + rest) == (m + [p]) + rest
  {
  }

  /** Which of two different lines to set aside: at least one of them, as the look-ahead decides. */
  method LookAhead(a: Lines, b: Lines, comp: (string, string) -> bool, i: nat, j: nat) returns (drop1: bool, drop2: bool)
    ensures drop1 || drop2
    ensures drop1 <==> After1(a, b, comp, i, j) > After2(a, b, comp, i, j) || After2(a, b, comp, i, j) == 0
    ensures drop2 <==> After1(a, b, comp, i, j) <= After2(a, b, comp, i, j)
  {
    var c1, _ := CountArrayDiff(a, b, comp, i + 1, j, 10.0);
    var c2, _ := CountArrayDiff(a, b, comp, i, j + 1, 10.0);
    if c1 > c2 {
      drop1, drop2 := true, false;
    } else if c2 > 0 {
      drop1, drop2 := false, true;
    } else {
      drop1, drop2 := true, true;
    }
  }

  lemma PassNext(a: Lines, b: Lines, comp: (string, string) -> bool, m: seq<Pair>, i: nat, j: nat)
    requires Aligned(a, b, comp, m, 0, 0) && i < |a| && j < |b| && comp(a[i], b[j])
    requires forall k :: 0 <= k < |m| ==> m[k].i < i && m[k].j < j
    ensures Aligned(a, b, comp, m + [Pair(i, j)], 0, 0)
  {
  }

  /** How the lines set aside on both sides are listed: a run of consecutive lines of one side stays together,
      first side before second, and otherwise the smaller number comes first. `l1` and `l2` are the last
      numbers listed. */
  function Interleaved(w: Lines, b: Lines, old1: seq<nat>, old2: seq<nat>, l1: int, l2: int): seq<Line>
    requires (forall k :: 0 <= k < |old1| ==> old1[k] < |w|) && (forall k :: 0 <= k < |old2| ==> old2[k] < |b|)
    decreases |old1| + |old2|
  {
    if old1 == [] && old2 == [] then []
    else if old2 == [] || (old1 != [] && (old1[0] == l1 + 1 || (old2[0] != l2 + 1 && old1[0] < old2[0]))) then
      [Minus(old1[0], w[old1[0]])] + Interleaved(w, b, old1[1..], old2, old1[0], l2)
    else
      [Plus(old2[0], b[old2[0]])] + Interleaved(w, b, old1, old2[1..], l1, old2[0])
  }

  lemma MoreListed(d: seq<Line>, l: Line, rest: seq<Line>)
    ensures d + ([l] + rest) == (d + [l]) + rest
  {
  }

  /** The loop that interleaves them. */
  method Merge(w: Lines, b: Lines, old1: seq<nat>, old2: seq<nat>) returns (diff: seq<Line>)
    requires (forall k :: 0 <= k < |old1| ==> old1[k] < |w|) && (forall k :: 0 <= k < |old2| ==> old2[k] < |b|)
    ensures diff == Interleaved(w, b, old1, old2, -2, -2)
    ensures Minuses(diff) == old1 && Pluses(diff) == old2 && Texts(w, b, diff)
    ensures old1 == [] && old2 == [] ==> diff == []
  {
    hide Minuses, Pluses;
    diff := [];
    NothingYet();
    var p1, p2, l1, l2 := 0, 0, -2, -2;
    while p1 < |old1| || p2 < |old2|
      invariant 0 <= p1 <= |old1| && 0 <= p2 <= |old2| && Texts(w, b, diff)
      invariant Minuses(diff) == old1[..p1] && Pluses(diff) == old2[..p2]
      invariant diff + Interleaved(w, b, old1[p1..], old2[p2..], l1, l2) == Interleaved(w, b, old1, old2, -2, -2)
      invariant p1 == 0 && p2 == 0 ==> diff == []
      decreases |old1| - p1 + |old2| - p2
    {
      var k1, k2 := if p1 < |old1| then old1[p1] else -1, if p2 < |old2| then old2[p2] else -1;
      var first := if p1 < |old1| && (k1 == l1 + 1 || p2 == |old2|) then true
                   else if p2 < |old2| && (k2 == l2 + 1 || p1 == |old1|) then false
                   else k1 < k2;
      if first {
        Emit(diff, Minus(k1, w[k1]));
        MoreListed(diff, Minus(k1, w[k1]), Interleaved(w, b, old1[p1 + 1..], old2[p2..], k1, l2));
        assert old1[p1..][1..] == old1[p1 + 1..];
        l1 := k1;
        diff := diff + [Minus(k1, w[k1])];
        p1 := p1 + 1;
      } else {
        Emit(diff, Plus(k2, b[k2]));
        MoreListed(diff, Plus(k2, b[k2]), Interleaved(w, b, old1[p1..], old2[p2 + 1..], l1, k2));
        assert old2[p2..][1..] == old2[p2 + 1..];
        l2 := k2;
        diff := diff + [Plus(k2, b[k2])];
        p2 := p2 + 1;
      }
    }
    assert old1[..p1] == old1 && old2[..p2] == old2;
  }

  lemma NothingYet()
    ensures Minuses([]) == [] && Pluses([]) == []
  {
  }
}
