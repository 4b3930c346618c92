/** Ordering extension modules by their dependencies, and starting them in that order. */
module Modules {
  import opened Constants

  datatype DepType = Required | Optional | Conflicts
  datatype Dep = Dep(name: string, kind: DepType)

  /** `startup` says whether the startup function of the module succeeds. */
  datatype Module = Module(name: string, started: bool, deps: seq<Dep>, startup: bool)

  /** strcasecmp(a, b) == 0. */
  predicate SameName(a: string, b: string) { Lower(a) == Lower(b) }

  predicate Orders(d: Dep) { d.kind == Required || d.kind == Optional }

  /** Module `m` has to come after module `r`. */
  ghost predicate Wants(m: Module, r: Module)
  {
    !m.started && exists k :: 0 <= k < |m.deps| && Orders(m.deps[k]) && SameName(m.deps[k].name, r.name)
  }

  ghost predicate UniqueNames(s: seq<Module>)
  {
    forall i, j :: 0 <= i < j < |s| ==> !SameName(s[i].name, s[j].name)
  }

  /** A way through modules of `s`, each wanting the next, that comes back to its beginning. */
  ghost predicate Cycle(s: set<Module>, c: seq<Module>)
  {
    && |c| > 1 && c[0] == c[|c| - 1] && (forall k :: 0 <= k < |c| ==> c[k] in s)
    && forall k :: 0 <= k < |c| - 1 ==> c[k] != c[k + 1] && Wants(c[k], c[k + 1])
  }

  ghost predicate Cyclic(s: set<Module>) { exists c :: Cycle(s, c) }

  ghost function Elems(s: seq<Module>): set<Module> { set m | m in s }

  /** A rank falls from every module to the other modules it wants. */
  ghost predicate Ranked(s: set<Module>, rank: Module -> nat)
  {
    forall m, r :: m in s && r in s && m != r && Wants(m, r) ==> rank(r) < rank(m)
  }

  /** Dependencies have no cycle exactly if they have a rank. */
  lemma RankIff(s: set<Module>)
    ensures !Cyclic(s) <==> exists rank :: Ranked(s, rank)
  {
    hide Cycle, Ranked;
    if exists rank :: Ranked(s, rank) {
      var rank :| Ranked(s, rank);
      forall c ensures !Cycle(s, c) { NoCycle(s, rank, c); }
    } else if !Cyclic(s) {
      var rank := RankOf(s);
    }
  }

  lemma NoCycle(s: set<Module>, rank: Module -> nat, c: seq<Module>)
    requires Ranked(s, rank)
    ensures !Cycle(s, c)
  {
    if Cycle(s, c) { RankFallsAlong(s, rank, c, |c| - 1); }
  }

  lemma {:induction false} RankFallsAlong(s: set<Module>, rank: Module -> nat, c: seq<Module>, k: nat)
    requires Ranked(s, rank) && Cycle(s, c) && 0 < k < |c|
    ensures rank(c[k]) < rank(c[0])
  {
    assert Wants(c[k - 1], c[k]) && c[k - 1] != c[k] && c[k - 1] in s && c[k] in s;
    if k > 1 { RankFallsAlong(s, rank, c, k - 1); }
  }

  /** Take away a module that wants no other, rank the rest above it. */
  lemma RankOf(s: set<Module>) returns (rank: Module -> nat)
    requires !Cyclic(s)
    ensures Ranked(s, rank)
    decreases |s|
  {
    if s == {} {
      rank := m => 0;
    } else {
      var z := Sink(s);
      forall c ensures !Cycle(s - {z}, c) { if Cycle(s - {z}, c) { assert Cycle(s, c); } }
      var below := RankOf(s - {z});
      rank := m => if m == z then 0 else below(m) + 1;
      forall m, r | m in s && r in s && m != r && Wants(m, r) ensures rank(r) < rank(m) {
        assert m in s - {z};
        if r != z { assert r in s - {z}; }
      }
    }
  }

  ghost predicate WantsOther(s: set<Module>, m: Module) { exists r :: r in s && r != m && Wants(m, r) }

  lemma Sink(s: set<Module>) returns (z: Module)
    requires !Cyclic(s) && s != {}
    ensures z in s && !WantsOther(s, z)
  {
    hide Wants, WantsOther;
    if forall m :: m in s ==> WantsOther(s, m) {
      EndlessWay(s);
      assert false;
    }
    z :| z in s && !WantsOther(s, z);
  }

  lemma EndlessWay(s: set<Module>)
    requires s != {} && forall m :: m in s ==> WantsOther(s, m)
    ensures Cyclic(s)
  {
    hide Wants, WantsOther;
    var w := Walk(s, |s|);
    var i, j := Repeats(w, s);
    var c := w[i..j + 1];
    assert Cycle(s, c);
  }

  /** `w` is a way through `s`. */
  ghost predicate Way(s: set<Module>, w: seq<Module>)
  {
    && (forall k :: 0 <= k < |w| ==> w[k] in s)
    && forall k :: 0 <= k < |w| - 1 ==> w[k] != w[k + 1] && Wants(w[k], w[k + 1])
  }

  lemma {:induction false} Walk(s: set<Module>, n: nat) returns (w: seq<Module>)
    requires s != {} && forall m :: m in s ==> WantsOther(s, m)
    ensures |w| == n + 1 && Way(s, w)
  {
    hide Wants, WantsOther;
    if n == 0 {
      var m :| m in s;
      w := [m];
    } else {
      var w' := Walk(s, n - 1);
      var last := w'[n - 1];
      var r := Other(s, last);
      w := w' + [r];
    }
  }

  lemma Other(s: set<Module>, m: Module) returns (r: Module)
    requires WantsOther(s, m)
    ensures r in s && r != m && Wants(m, r)
  {
    hide Wants;
    r :| r in s && r != m && Wants(m, r);
  }

  lemma {:induction false} Repeats(w: seq<Module>, s: set<Module>) returns (i: nat, j: nat)
    requires |w| > |s| && forall k :: 0 <= k < |w| ==> w[k] in s
    ensures i < j < |w| && w[i] == w[j]
    decreases |w|
  {
    if k :| 0 < k < |w| && w[k] == w[0] {
      return 0, k;
    }
    i, j := Repeats(w[1..], s - {w[0]});
    i, j := i + 1, j + 1;
  }

  /** No module before position `n` wants one that comes after it. */
  ghost predicate Ordered(s: seq<Module>, n: int)
  {
    forall i, j :: 0 <= i < n && i < j < |s| ==> !Wants(s[i], s[j])
  }

  function Swap(s: seq<Module>, i: int, j: int): seq<Module>
    requires 0 <= i < |s| && 0 <= j < |s|
  {
    s[i := s[j]][j := s[i]]
  }

  lemma SwapSame(s: seq<Module>, i: int, j: int)
    requires 0 <= i < j < |s|
    ensures multiset(Swap(s, i, j)) == multiset(s)
    ensures Elems(Swap(s, i, j)) == Elems(s)
  {
    var t := s[i := s[j]];
    assert multiset(t) == multiset(s) - multiset{s[i]} + multiset{s[j]} && t[j] == s[j];
    var s' := t[j := s[i]];
    assert multiset(s') == multiset(t) - multiset{s[j]} + multiset{s[i]};
    SameElems(s, s');
  }

  lemma SwapUnique(s: seq<Module>, i: int, j: int)
    requires 0 <= i < j < |s| && UniqueNames(s)
    ensures UniqueNames(Swap(s, i, j)) && s[i] != s[j]
  {
    var s' := Swap(s, i, j);
    forall a, b | 0 <= a < b < |s| ensures !SameName(s'[a].name, s'[b].name) {
      var a0 := if a == i then j else if a == j then i else a;
      var b0 := if b == i then j else if b == j then i else b;
      if a0 < b0 { assert !SameName(s[a0].name, s[b0].name); } else { assert !SameName(s[b0].name, s[a0].name); }
    }
    assert !SameName(s[i].name, s[j].name);
  }

  /** A swap behind position `i` leaves what is settled before it. */
  lemma SwapOrdered(s: seq<Module>, i: int, j: int)
    requires 0 <= i < j < |s| && Ordered(s, i)
    ensures Ordered(Swap(s, i, j), i)
  {
    var s' := Swap(s, i, j);
    forall a, b | 0 <= a < i && a < b < |s| ensures !Wants(s'[a], s'[b]) {
      var b0 := if b == i then j else if b == j then i else b;
      assert s'[a] == s[a] && s'[b] == s[b0];
    }
  }

  // ---------- the inner loops ----------

  /** The first position from `j` on with a module of that name, or the end. */
  function NamedFrom(s: seq<Module>, name: string, j: nat): (k: nat)
    requires j <= |s|
    ensures j <= k <= |s| && (k < |s| ==> SameName(name, s[k].name))
    ensures forall l :: j <= l < k ==> !SameName(name, s[l].name)
    decreases |s| - j
  {
    if j == |s| || SameName(name, s[j].name) then j else NamedFrom(s, name, j + 1)
  }

  /** The position of the first listed dependency from number `d` on that sits behind `i`, or -1. */
  function LaterFrom(s: seq<Module>, i: nat, d: nat): (j: int)
    requires i < |s| && d <= |s[i].deps| && !s[i].started
    ensures j < 0 <==>
              forall e, k :: d <= e < |s[i].deps| && Orders(s[i].deps[e]) && i < k < |s| ==> !SameName(s[i].deps[e].name, s[k].name)
    ensures j >= 0 ==> i < j < |s| && Wants(s[i], s[j])
    decreases |s[i].deps| - d
  {
    if d == |s[i].deps| then -1
    else
      var dep := s[i].deps[d];
      var k := NamedFrom(s, dep.name, i + 1);
      if Orders(dep) && k < |s| then k else LaterFrom(s, i, d + 1)
  }

  function Later(s: seq<Module>, i: nat): (j: int)
    requires i < |s|
    ensures j < 0 <==> forall k :: i < k < |s| ==> !Wants(s[i], s[k])
    ensures j >= 0 ==> i < j < |s| && Wants(s[i], s[j])
  {
    if s[i].started then -1 else LaterFrom(s, i, 0)
  }

  /** The two inner loops: the first listed dependency that sits behind position `i`, or -1. */
  method FindLater(s: seq<Module>, i: nat) returns (j: int)
    requires i < |s|
    ensures j == Later(s, i)
  {
    var m := s[i];
    if m.started {
      return -1;
    }
    var d := 0;
    while d < |m.deps|
      invariant 0 <= d <= |m.deps| && LaterFrom(s, i, d) == LaterFrom(s, i, 0)
    {
      if Orders(m.deps[d]) {
        j := i + 1;
        while j < |s|
          invariant i < j <= |s| && NamedFrom(s, m.deps[d].name, j) == NamedFrom(s, m.deps[d].name, i + 1)
        {
          if SameName(m.deps[d].name, s[j].name) {
            return;
          }
          j := j + 1;
        }
      }
      d := d + 1;
    }
    j := -1;
  }

  // ---------- the loop with restarts, cycles or not ----------

  /** The registry and the position `b1`. */
  datatype Sorting = Sorting(s: seq<Module>, i: nat)

  predicate Done(x: Sorting) { x.i >= |x.s| }

  /** One look at a position: a swap and `try_again`, or one position further. */
  function Turn(x: Sorting): Sorting
    requires !Done(x)
  {
    var j := Later(x.s, x.i);
    if j >= 0 then x.(s := Swap(x.s, x.i, j)) else x.(i := x.i + 1)
  }

  function Turns(x: Sorting, k: nat): Sorting
    decreases k
  {
    if k == 0 || Done(x) then x else Turns(Turn(x), k - 1)
  }

  lemma {:induction false} TurnsSnoc(x: Sorting, k: nat)
    ensures Turns(x, k + 1) == if Done(Turns(x, k)) then Turns(x, k) else Turn(Turns(x, k))
    decreases k
  {
    if k > 0 && !Done(x) { TurnsSnoc(Turn(x), k - 1); }
  }

  /** The loop ends on this registry. */
  ghost predicate SortEnds(s: seq<Module>) { exists k :: Done(Turns(Sorting(s, 0), k)) }

  /** What every turn keeps: the modules, their names, and the order before the position. */
  ghost predicate Progress(s: seq<Module>, x: Sorting)
  {
    && multiset(x.s) == multiset(s) && Elems(x.s) == Elems(s) && |x.s| == |s|
    && UniqueNames(x.s) && x.i <= |x.s| && Ordered(x.s, x.i)
  }

  lemma TurnKeeps(s: seq<Module>, x: Sorting)
    requires Progress(s, x) && !Done(x)
    ensures Progress(s, Turn(x))
  {
    hide UniqueNames, Ordered, Wants, Later;
    var j := Later(x.s, x.i);
    if j >= 0 {
      SwapSame(x.s, x.i, j);
      SwapUnique(x.s, x.i, j);
      SwapOrdered(x.s, x.i, j);
    } else {
      Settled(x.s, x.i);
    }
  }

  lemma {:induction false} TurnsKeep(s: seq<Module>, x: Sorting, k: nat)
    requires Progress(s, x)
    ensures Progress(s, Turns(x, k))
    decreases k
  {
    hide Progress;
    if k > 0 && !Done(x) {
      TurnKeeps(s, x);
      TurnsKeep(s, Turn(x), k - 1);
    }
  }

  /** The number of turns from `x` to the end, when a rank bounds the restarts. */
  lemma {:induction false} TurnsEnd(s: seq<Module>, x: Sorting, rank: Module -> nat) returns (k: nat)
    requires Progress(s, x) && Ranked(Elems(s), rank)
    ensures Done(Turns(x, k))
    decreases |s| - x.i, if Done(x) then 0 else rank(x.s[x.i])
  {
    k := 0;
    if !Done(x) {
      RankFalls(s, x, rank);
      TurnKeeps(s, x);
      hide Turn, Progress;
      k := TurnsEnd(s, Turn(x), rank);
      k := k + 1;
    }
  }

  lemma RankFalls(s: seq<Module>, x: Sorting, rank: Module -> nat)
    requires Progress(s, x) && Ranked(Elems(s), rank) && !Done(x)
    ensures |Turn(x).s| == |s|
    ensures Turn(x).i == x.i + 1 || (Turn(x).i == x.i && rank(Turn(x).s[x.i]) < rank(x.s[x.i]))
  {
    hide Ordered, Wants, Later;
    var j := Later(x.s, x.i);
    if j >= 0 {
      SwapUnique(x.s, x.i, j);
      assert x.s[x.i] in x.s && x.s[j] in x.s;
      assert x.s[x.i] in Elems(s) && x.s[j] in Elems(s);
    }
  }

  /** The positions of an ordered registry are a rank. */
  lemma OrderedRank(s: seq<Module>) returns (rank: Module -> nat)
    requires UniqueNames(s) && Ordered(s, |s|)
    ensures Ranked(Elems(s), rank)
  {
    rank := m => Position(s, m);
    forall m, r | m in Elems(s) && r in Elems(s) && m != r && Wants(m, r) ensures rank(r) < rank(m) {
      var i, j := Position(s, m), Position(s, r);
      assert i != j;
      assert !(i < j) by { assert Wants(s[i], s[j]); }
    }
  }

  ghost function Position(s: seq<Module>, m: Module): (i: nat)
    ensures m in s ==> i < |s| && s[i] == m
  {
    if m in s then var i: nat :| i < |s| && s[i] == m; i else 0
  }

  /** The sort ends exactly if the dependencies have no cycle; then its result is the ordered
      permutation that it promises, and with a cycle there is none. */
  lemma SortEndsIff(s: seq<Module>)
    requires UniqueNames(s)
    ensures SortEnds(s) <==> !Cyclic(Elems(s))
    ensures !Cyclic(Elems(s)) <==> exists t :: SortOf(s, t)
  {
    hide UniqueNames, Ordered, Ranked, Cyclic, Turns, Elems, SortOf;
    var x := Sorting(s, 0);
    RankIff(Elems(s));
    StartProgress(s);
    if SortEnds(s) {
      var k :| Done(Turns(x, k));
      TurnsKeep(s, x, k);
      ProgressEnds(s, Turns(x, k));
    }
    if exists t :: SortOf(s, t) {
      var t :| SortOf(s, t);
      SortOfMeans(s, t);
      var rank := OrderedRank(t);
    }
    if !Cyclic(Elems(s)) {
      var rank :| Ranked(Elems(s), rank);
      var k := TurnsEnd(s, x, rank);
    }
  }

  /** `t` is an ordered permutation of `s`. */
  ghost predicate SortOf(s: seq<Module>, t: seq<Module>)
  {
    multiset(t) == multiset(s) && Ordered(t, |t|)
  }

  lemma SortOfMeans(s: seq<Module>, t: seq<Module>)
    requires SortOf(s, t) && UniqueNames(s)
    ensures UniqueNames(t) && Ordered(t, |t|) && Elems(t) == Elems(s)
  {
    SameElems(s, t);
    PermutedNames(s, t);
  }

  lemma SameElems(s: seq<Module>, t: seq<Module>)
    requires multiset(t) == multiset(s)
    ensures Elems(t) == Elems(s)
  {
    forall m ensures m in t <==> m in s { assert m in t <==> m in multiset(t); assert m in s <==> m in multiset(s); }
    assert forall m :: m in Elems(t) <==> m in Elems(s);
  }

  lemma StartProgress(s: seq<Module>)
    requires UniqueNames(s)
    ensures Progress(s, Sorting(s, 0))
  {
  }

  lemma ProgressEnds(s: seq<Module>, x: Sorting)
    requires Progress(s, x) && Done(x)
    ensures SortOf(s, x.s)
  {
  }

  /** A permutation of modules with unique names has unique names. */
  lemma PermutedNames(s: seq<Module>, t: seq<Module>)
    requires multiset(t) == multiset(s) && UniqueNames(s)
    ensures UniqueNames(t)
  {
    forall i, j | 0 <= i < j < |t| ensures !SameName(t[i].name, t[j].name) {
      if SameName(t[i].name, t[j].name) {
        assert t[i] in multiset(t) && t[j] in multiset(t);
        assert t[i] in s && t[j] in s;
        OnePosition(s, t[i], t[j]);
        Twice(t, i, j);
        Once(s, t[i]);
      }
    }
  }

  lemma OnePosition(s: seq<Module>, m: Module, r: Module)
    requires UniqueNames(s) && m in s && r in s && SameName(m.name, r.name)
    ensures m == r
  {
    var i, j := Position(s, m), Position(s, r);
    assert SameName(s[i].name, s[j].name) && SameName(s[j].name, s[i].name);
  }

  lemma Twice(t: seq<Module>, i: int, j: int)
    requires 0 <= i < j < |t| && t[i] == t[j]
    ensures multiset(t)[t[i]] >= 2
  {
    assert t == t[..j] + t[j..];
    assert multiset(t) == multiset(t[..j]) + multiset(t[j..]);
    assert t[..j][i] == t[i] && t[j..][0] == t[i];
    assert t[i] in multiset(t[..j]) && t[i] in multiset(t[j..]);
  }

  lemma {:induction false} Once(s: seq<Module>, m: Module)
    requires UniqueNames(s)
    ensures multiset(s)[m] <= 1
    decreases |s|
  {
    if s != [] {
      var t := s[1..];
      assert s == [s[0]] + t;
      assert UniqueNames(t) by {
        forall i, j | 0 <= i < j < |t|
          ensures !SameName(t[i].name, t[j].name)
        {
          assert !SameName(s[i + 1].name, s[j + 1].name);
        }
      }
      Once(t, m);
      assert s[0] !in t;
      assert multiset(s) == multiset{s[0]} + multiset(t);
      assert s[0] !in multiset(t);
    }
  }

  /** With a cycle of any length the restarts never end. */
  lemma CycleRestarts(s: seq<Module>, c: seq<Module>, k: nat)
    requires UniqueNames(s) && Cycle(Elems(s), c)
    ensures !Done(Turns(Sorting(s, 0), k)) && forall t :: !SortOf(s, t)
  {
    hide UniqueNames, Cycle, SortOf;
    SortEndsIff(s);
  }

  /** zend_sort_modules. Without cycles the restarts end, since each puts a module of lower rank in
      place; the result is a permutation in which no unstarted module comes before one it names. */
  method SortModules(a: array<Module>) returns (ghost k: nat)
    requires UniqueNames(a[..]) && !Cyclic(Elems(a[..]))
    modifies a
    ensures SortOf(old(a[..]), a[..]) && UniqueNames(a[..]) && Elems(a[..]) == old(Elems(a[..]))
    ensures Turns(Sorting(old(a[..]), 0), k) == Sorting(a[..], a.Length)
  {
    hide Cyclic, Ranked, UniqueNames, Ordered, Wants, Elems, Turns;
    ghost var s := a[..];
    RankIff(Elems(s));
    ghost var rank :| Ranked(Elems(s), rank);
    StartProgress(s);
    var i := 0;
    k := 0;
    NoTurns(Sorting(s, 0));
    while i < a.Length
      invariant 0 <= i <= a.Length && Progress(s, Sorting(a[..], i)) && Turns(Sorting(s, 0), k) == Sorting(a[..], i)
      decreases a.Length - i, if i < a.Length then rank(a[i]) else 0
    {
      ghost var x := Sorting(a[..], i);
      RankFalls(s, x, rank);
      TurnKeeps(s, x);
      TurnsSnoc(Sorting(s, 0), k);
      k := k + 1;
      var j := FindLater(a[..], i);
      if j >= 0 {
        a[i], a[j] := a[j], a[i];
      } else {
        i := i + 1;
      }
      assert Sorting(a[..], i) == Turn(x);
    }
  }

  lemma NoTurns(x: Sorting) ensures Turns(x, 0) == x { }

  lemma Settled(s: seq<Module>, i: int)
    requires 0 <= i < |s| && Ordered(s, i) && forall k :: i < k < |s| ==> !Wants(s[i], s[k])
    ensures Ordered(s, i + 1)
  {
  }

  // ---------- zend_startup_module_ex ----------

  /** The module under a name in the registry, or its length. */
  method Find(s: seq<Module>, name: string) returns (k: nat)
    ensures k <= |s| && (k < |s| ==> SameName(s[k].name, name)) && forall i :: 0 <= i < k ==> !SameName(s[i].name, name)
  {
    k := 0;
    while k < |s|
      invariant k <= |s| && forall i :: 0 <= i < k ==> !SameName(s[i].name, name)
    {
      if SameName(s[k].name, name) {
        return;
      }
      k := k + 1;
    }
  }

  /** A required dependency is met when the registry holds a started module of that name. */
  ghost predicate Met(s: seq<Module>, d: Dep)
  {
    exists k :: 0 <= k < |s| && SameName(s[k].name, d.name) && s[k].started
  }

  ghost predicate AllMet(s: seq<Module>, m: Module)
  {
    forall d :: 0 <= d < |m.deps| && m.deps[d].kind == Required ==> Met(s, m.deps[d])
  }

  /** Start module `i`: its required modules, looked up while it already counts as started itself, must
      be started; then its startup function runs. A module that is refused is not started; one whose
      startup function fails keeps the mark. */
  method StartModule(a: array<Module>, i: nat) returns (ok: bool)
    requires i < a.Length && UniqueNames(a[..])
    modifies a
    ensures UniqueNames(a[..])
    ensures forall k :: 0 <= k < a.Length && k != i ==> a[k] == old(a[k])
    ensures var met := AllMet(old(a[..])[i := old(a[i]).(started := true)], old(a[i]));
            && (ok <==> old(a[i].started) || (met && old(a[i]).startup))
            && a[i] == old(a[i]).(started := old(a[i].started) || met)
  {
    ok := true;
    if a[i].started {
      return;
    }
    a[i] := a[i].(started := true);
    ghost var s := a[..];
    assert s == old(a[..])[i := old(a[i]).(started := true)];
    var d := 0;
    while d < |a[i].deps|
      invariant 0 <= d <= |a[i].deps| && a[..] == s
      invariant forall e :: 0 <= e < d && s[i].deps[e].kind == Required ==> Met(s, s[i].deps[e])
    {
      if a[i].deps[d].kind == Required {
        var k := Find(a[..], a[i].deps[d].name);
        if k == a.Length || !a[k].started {
          NotMet(s, s[i].deps[d], k);
          a[i] := a[i].(started := false);
          return false;
        }
        assert Met(s, s[i].deps[d]);
      }
      d := d + 1;
    }
    ok := a[i].startup;
  }

  lemma NotMet(s: seq<Module>, d: Dep, k: nat)
    requires UniqueNames(s) && k <= |s| && forall i :: 0 <= i < k ==> !SameName(s[i].name, d.name)
    requires k < |s| ==> SameName(s[k].name, d.name) && !s[k].started
    ensures !Met(s, d)
  {
    forall i | 0 <= i < |s| && SameName(s[i].name, d.name) ensures !s[i].started {
      if k < i { assert SameName(s[k].name, s[i].name); }
    }
  }

  ghost predicate Registered(s: set<Module>, name: string)
  {
    exists m :: m in s && SameName(m.name, name)
  }

  /** Every module that `m` requires is in the registry. */
  ghost predicate Complete(s: set<Module>, m: Module)
  {
    forall d :: 0 <= d < |m.deps| && m.deps[d].kind == Required ==> Registered(s, m.deps[d].name)
  }

  /** Nothing keeps `m` from being started, if the order is right. */
  ghost predicate Startable(s: set<Module>, m: Module)
  {
    m.started || (m.startup && Complete(s, m))
  }

  /** The registry with the modules before `n` started. */
  function StartedUpTo(s: seq<Module>, n: nat): (r: seq<Module>)
    ensures |r| == |s|
  {
    seq(|s|, k requires 0 <= k < |s| => if k < n then s[k].(started := true) else s[k])
  }

  /** zend_startup_modules: sort, then start in order. The first module that fails is dropped from the
      registry and ends the loop, without an error for the caller; the modules behind it stay as they
      were. That happens exactly if some module fails to start by itself or lacks a required module:
      the order never refuses one. */
  method StartupModules(a: array<Module>)
    returns (registry: seq<Module>, ghost sorted: seq<Module>, ghost n: nat, ghost turns: nat)
    requires UniqueNames(a[..]) && !Cyclic(Elems(a[..]))
    modifies a
    ensures SortOf(old(a[..]), sorted) && n <= |sorted|
    ensures Turns(Sorting(old(a[..]), 0), turns) == Sorting(sorted, |sorted|)
    ensures registry == StartedUpTo(sorted, n)[..n] + (if n < |sorted| then sorted[n + 1..] else [])
    ensures forall k :: 0 <= k < n ==> Startable(old(Elems(a[..])), sorted[k])
    ensures n < |sorted| ==> !Startable(old(Elems(a[..])), sorted[n])
    ensures n == |sorted| <==> forall m :: m in old(a[..]) ==> Startable(old(Elems(a[..])), m)
  {
    hide Cyclic, UniqueNames, Ordered, Startable, Complete, Elems, AllMet, Turns;
    ghost var s := a[..];
    ghost var e := Elems(s);
    turns := SortModules(a);
    sorted := a[..];
    var i := 0;
    while i < a.Length
      invariant 0 <= i <= a.Length && UniqueNames(a[..])
      invariant a[..] == StartedUpTo(sorted, i)
      invariant forall k :: 0 <= k < i ==> Startable(e, sorted[k])
    {
      ghost var m := a[i];
      if !m.started { InOrder(sorted, a[..], i); }
      assert Startable(e, m) <==> m.started || (m.startup && Complete(e, m)) by { StartableMeans(e, m); }
      var ok := StartModule(a, i);
      if !ok {
        n := i;
        registry := a[..i] + a[i + 1..];
        Dropped(sorted, a[..], n);
        InBoth(s, sorted, n);
        return;
      }
      i := i + 1;
      assert a[..] == StartedUpTo(sorted, i);
    }
    n := i;
    registry := a[..];
    forall m | m in s ensures Startable(e, m) { ElemAt(s, sorted, m); }
  }

  lemma Dropped(s: seq<Module>, t: seq<Module>, n: nat)
    requires n < |s| == |t| && forall k :: 0 <= k < |s| && k != n ==> t[k] == StartedUpTo(s, n)[k]
    ensures t[..n] + t[n + 1..] == StartedUpTo(s, n)[..n] + s[n + 1..]
  {
    assert t[..n] == StartedUpTo(s, n)[..n];
    assert t[n + 1..] == s[n + 1..];
  }

  lemma StartableMeans(s: set<Module>, m: Module)
    ensures Startable(s, m) <==> m.started || (m.startup && Complete(s, m))
  {
  }

  lemma InBoth(s: seq<Module>, t: seq<Module>, n: nat)
    requires Elems(s) == Elems(t) && n < |t|
    ensures t[n] in s
  {
    assert t[n] in Elems(t);
  }

  lemma ElemAt(s: seq<Module>, t: seq<Module>, m: Module)
    requires Elems(s) == Elems(t) && m in s
    ensures exists k :: 0 <= k < |t| && t[k] == m
  {
    assert m in Elems(t);
  }

  /** In a sorted registry, what module `i` requires is started by its turn exactly if it is registered. */
  lemma InOrder(s: seq<Module>, t: seq<Module>, i: nat)
    requires i < |s| && Ordered(s, |s|) && t == StartedUpTo(s, i) && !s[i].started
    ensures AllMet(t[i := t[i].(started := true)], t[i]) <==> Complete(Elems(s), s[i])
  {
    var u := t[i := t[i].(started := true)];
    forall d | 0 <= d < |s[i].deps| && s[i].deps[d].kind == Required
      ensures Met(u, s[i].deps[d]) <==> Registered(Elems(s), s[i].deps[d].name)
    {
      MetIff(s, u, i, d);
    }
  }

  lemma MetIff(s: seq<Module>, u: seq<Module>, i: nat, d: nat)
    requires i < |s| && Ordered(s, |s|) && !s[i].started && u == StartedUpTo(s, i + 1)
    requires d < |s[i].deps| && s[i].deps[d].kind == Required
    ensures Met(u, s[i].deps[d]) <==> Registered(Elems(s), s[i].deps[d].name)
  {
    var name := s[i].deps[d].name;
    if Met(u, s[i].deps[d]) {
      var k :| 0 <= k < |u| && SameName(u[k].name, name) && u[k].started;
      assert s[k] in Elems(s) && SameName(s[k].name, name);
    }
    if Registered(Elems(s), name) {
      var m :| m in Elems(s) && SameName(m.name, name);
      var k :| 0 <= k < |s| && s[k] == m;
      assert !(i < k) by { if i < k { assert Wants(s[i], s[k]); } }
      assert SameName(u[k].name, name) && u[k].started;
    }
  }
}
