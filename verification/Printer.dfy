/** Recursive printing of arrays and objects (print_r in its nested and its flat form) over a graph of
    hash tables that may be cyclic. A table that is being printed is marked by its `nApplyCount`. */
module Printer {

  /** What a slot of a table holds; an object may have no property table. */
  datatype Val = Scalar(text: string) | Arr(t: int) | Obj(cls: string, props: Props)
  datatype Props = NoTable | Table(t: int)

  datatype Element = Element(key: string, val: Val)

  type Tables = map<int, seq<Element>>

  /** Every table that is mentioned exists. */
  ghost predicate Closed(g: Tables)
  {
    forall t, k :: t in g && 0 <= k < |g[t]| ==> Known(g, g[t][k].val)
  }

  predicate Known(g: Tables, v: Val)
  {
    match v
    case Scalar(_) => true
    case Arr(t) => t in g
    case Obj(_, p) => p.Table? ==> p.t in g
  }

  // ---------- the text ----------

  function Spaces(n: int): string { if n <= 0 then "" else Spaces(n - 1) + " " }

  function Title(flat: bool, v: Val): string
  {
    match v
    case Scalar(text) => text
    case Arr(_) => if flat then "Array (" else "Array\n"
    case Obj(cls, _) => cls + (if flat then " Object (" else " Object\n")
  }

  function Before(flat: bool, indent: int, k: int, key: string): string
  {
    (if flat then (if k > 0 then "," else "") else Spaces(indent + 4)) + "[" + key + "] => "
  }

  function After(flat: bool): string { if flat then "" else "\n" }
  function Open(flat: bool, indent: int): string { if flat then "" else Spaces(indent) + "(\n" }
  function Close(flat: bool, indent: int): string { if flat then ")" else Spaces(indent) + ")\n" }

  const RECURSION: string := " *RECURSION*"

  /** The tables that are not on the path to the value being printed. */
  ghost function Left(g: Tables, path: set<int>): set<int> { g.Keys - path }

  lemma Deeper(g: Tables, path: set<int>, t: int)
    requires t in g && t !in path
    ensures |Left(g, path + {t})| < |Left(g, path)|
  {
    var a, b := Left(g, path), Left(g, path + {t});
    assert t in a && b == a - {t};
  }

  /** The output as a function of the graph and of the tables on the path from the root, without any
      counters: a table on the path is cut off with the mark, which is a parameter here. */
  ghost function Render(g: Tables, flat: bool, mark: string, v: Val, indent: int, path: set<int>): string
    requires Closed(g) && Known(g, v)
    decreases |Left(g, path)|, 1
  {
    Title(flat, v) +
    match v
    case Scalar(_) => ""
    case Arr(t) => RenderTable(g, flat, mark, t, indent, path)
    case Obj(_, NoTable) => if flat then ")" else ""
    case Obj(_, Table(t)) => RenderTable(g, flat, mark, t, indent, path)
  }

  ghost function RenderTable(g: Tables, flat: bool, mark: string, t: int, indent: int, path: set<int>): string
    requires Closed(g) && t in g
    decreases |Left(g, path)|, 0
  {
    if t in path then mark
    else
      Deeper(g, path, t);
      Open(flat, indent) + RenderTo(g, flat, mark, t, |g[t]|, indent, path + {t}) + Close(flat, indent)
  }

  /** The first `k` elements of a table. */
  ghost function RenderTo(g: Tables, flat: bool, mark: string, t: int, k: nat, indent: int, path: set<int>): string
    requires Closed(g) && t in g && k <= |g[t]|
    decreases |Left(g, path)|, 3, k
  {
    if k == 0 then "" else RenderTo(g, flat, mark, t, k - 1, indent, path) + RenderElement(g, flat, mark, t, k - 1, indent, path)
  }

  ghost function RenderElement(g: Tables, flat: bool, mark: string, t: int, k: nat, indent: int, path: set<int>): string
    requires Closed(g) && t in g && k < |g[t]|
    decreases |Left(g, path)|, 2
  {
    Before(flat, indent, k, g[t][k].key) + Render(g, flat, mark, g[t][k].val, indent + 8, path) + After(flat)
  }

  // ---------- the printer ----------

  ghost function Marked(count: map<int, int>): set<int> { set t | t in count && count[t] > 0 }

  lemma MarkOne(count: map<int, int>, t: int)
    requires t in count && count[t] == 0
    ensures t !in Marked(count) && Marked(count[t := 1]) == Marked(count) + {t}
  {
    forall u ensures u in Marked(count[t := 1]) <==> u in Marked(count) + {t} { }
  }

  class Printer {
    const g: Tables
    var count: map<int, int>      // nApplyCount, an unsigned char
    var out: string

    ghost predicate Valid()
      reads this
    {
      Closed(g) && count.Keys == g.Keys && forall t :: t in count ==> 0 <= count[t] < 255
    }

    /** The tables being printed. */
    ghost function Path(): set<int>
      reads this
    {
      Marked(count)
    }

    method Put(s: string)
      modifies this`out
      ensures out == old(out) + s
    {
      out := out + s;
    }

    method Indent(n: int)
      modifies this`out
      ensures out == old(out) + Spaces(n)
    {
      var i := 0;
      while i < n
        invariant 0 <= i && (if n < 0 then i == 0 else i <= n) && out == old(out) + Spaces(i)
      {
        out := out + " ";
        i := i + 1;
      }
    }

    /** zend_print_zval_r_ex and zend_print_flat_zval_r: the output is the rendering above, and every
        counter is as before, whatever cycles the graph has. It is the rendering without marks exactly
        if nothing is cut off. */
    method Print(flat: bool, v: Val, indent: int)
      requires Valid() && Known(g, v)
      modifies this`count, this`out
      ensures Valid() && count == old(count)
      ensures out == old(out) + Render(g, flat, RECURSION, v, indent, old(Path()))
      ensures out == old(out) + Render(g, flat, "", v, indent, old(Path())) <==> forall t :: t in TableOf(v) ==> !Cuts(g, t, old(Path()))
      decreases |Left(g, Path())|, 1
    {
      hide Title, RenderTable, Cuts, TableOf;
      ghost var path := Path();
      Written(g, flat, v, indent, path, out);
      Put(Title(flat, v));
      match v
      case Scalar(_) =>
      case Arr(t) => PrintTable(flat, t, indent);
      case Obj(_, p) =>
        if p.Table? {
          PrintTable(flat, p.t, indent);
        } else if flat {
          Put(")");
        }
    }

    /** A counter above one means that the table is already being printed further up. */
    method PrintTable(flat: bool, t: int, indent: int)
      requires Valid() && t in g
      modifies this`count, this`out
      ensures Valid() && count == old(count)
      ensures out == old(out) + RenderTable(g, flat, RECURSION, t, indent, old(Path()))
      ensures out == old(out) + RenderTable(g, flat, "", t, indent, old(Path())) <==> !Cuts(g, t, old(Path()))
      ensures |out| == |old(out)| + |RenderTable(g, flat, "", t, indent, old(Path()))| + |RECURSION| * Cut(g, t, old(Path()))
      decreases |Left(g, Path())|, 0
    {
      hide Left, Spaces, RenderTo, Open, Close, Cut, Cuts;
      ghost var path := Path();
      WrittenTable(g, flat, t, indent, path, out);
      count := count[t := count[t] + 1];
      if count[t] > 1 {
        Put(RECURSION);
        count := count[t := count[t] - 1];
        return;
      }
      MarkOne(old(count), t);
      Deeper(g, path, t);
      PrintOpen(flat, indent);
      PrintElements(flat, t, indent);
      PrintClose(flat, indent);
      count := count[t := count[t] - 1];
    }

    method PrintOpen(flat: bool, indent: int)
      modifies this`out
      ensures out == old(out) + Open(flat, indent)
    {
      if !flat {
        Indent(indent);
        Put("(\n");
      }
    }

    method PrintClose(flat: bool, indent: int)
      modifies this`out
      ensures out == old(out) + Close(flat, indent)
    {
      if !flat {
        Indent(indent);
        Put(")\n");
      } else {
        Put(")");
      }
    }

    method PrintElements(flat: bool, t: int, indent: int)
      requires Valid() && t in g
      modifies this`count, this`out
      ensures Valid() && count == old(count)
      ensures out == old(out) + RenderTo(g, flat, RECURSION, t, |g[t]|, indent, old(Path()))
      decreases |Left(g, Path())|, 3
    {
      hide RenderElement, Before, After;
      var k := 0;
      while k < |g[t]|
        invariant 0 <= k <= |g[t]| && Valid() && count == old(count)
        invariant out == old(out) + RenderTo(g, flat, RECURSION, t, k, indent, old(Path()))
      {
        PrintElement(flat, t, k, indent);
        k := k + 1;
      }
    }

    method PrintElement(flat: bool, t: int, k: nat, indent: int)
      requires Valid() && t in g && k < |g[t]|
      modifies this`count, this`out
      ensures Valid() && count == old(count)
      ensures out == old(out) + RenderElement(g, flat, RECURSION, t, k, indent, old(Path()))
      decreases |Left(g, Path())|, 2
    {
      hide Render, Before, After;
      assert Known(g, g[t][k].val);
      PrintKey(flat, indent, k, g[t][k].key);
      Print(flat, g[t][k].val, indent + 8);
      PutAfter(flat);
    }

    method PutAfter(flat: bool)
      modifies this`out
      ensures out == old(out) + After(flat)
    {
      if !flat {
        Put("\n");
      }
    }

    method PrintKey(flat: bool, indent: int, k: nat, key: string)
      modifies this`out
      ensures out == old(out) + Before(flat, indent, k, key)
    {
      hide Spaces;
      if !flat {
        Indent(indent + 4);
      } else if k > 0 {
        Put(",");
      }
      Put("[");
      Put(key);
      Put("] => ");
    }
  }

  // ---------- what the mark means ----------

  function TableOf(v: Val): set<int>
  {
    match v
    case Scalar(_) => {}
    case Arr(t) => {t}
    case Obj(_, p) => if p.Table? then {p.t} else {}
  }

  ghost predicate Contains(g: Tables, t: int, u: int)
  {
    t in g && u in g && exists k :: 0 <= k < |g[t]| && u in TableOf(g[t][k].val)
  }

  /** Printing table `t` below the tables of `path` writes the mark somewhere. */
  ghost predicate Cuts(g: Tables, t: int, path: set<int>)
    requires t in g
    decreases |Left(g, path)|
  {
    t in path || exists u :: Contains(g, t, u) && (Deeper(g, path, t); Cuts(g, u, path + {t}))
  }

  /** How many tables are cut off in printing table `t` below the tables of `path`. */
  ghost function Cut(g: Tables, t: int, path: set<int>): nat
    requires Closed(g) && t in g
    decreases |Left(g, path)|, 0
  {
    if t in path then 1 else (Deeper(g, path, t); CutTo(g, t, |g[t]|, path + {t}))
  }

  ghost function CutTo(g: Tables, t: int, k: nat, path: set<int>): nat
    requires Closed(g) && t in g && k <= |g[t]|
    decreases |Left(g, path)|, 2, k
  {
    if k == 0 then 0 else CutTo(g, t, k - 1, path) + CutIn(g, g[t][k - 1].val, path)
  }

  ghost function CutIn(g: Tables, v: Val, path: set<int>): nat
    requires Closed(g) && Known(g, v)
    decreases |Left(g, path)|, 1
  {
    match v
    case Scalar(_) => 0
    case Arr(t) => Cut(g, t, path)
    case Obj(_, p) => if p.Table? then Cut(g, p.t, path) else 0
  }

  /** The rendering holds the mark once for every table cut off. */
  lemma {:induction false} MarkLength(g: Tables, flat: bool, mark: string, t: int, indent: int, path: set<int>)
    requires Closed(g) && t in g
    ensures |RenderTable(g, flat, mark, t, indent, path)| == |RenderTable(g, flat, "", t, indent, path)| + |mark| * Cut(g, t, path)
    decreases |Left(g, path)|, 0
  {
    hide RenderTo, CutTo, Spaces, Left;
    if t !in path {
      Deeper(g, path, t);
      MarkLengthTo(g, flat, mark, t, |g[t]|, indent, path + {t});
    }
  }

  lemma {:induction false} MarkLengthTo(g: Tables, flat: bool, mark: string, t: int, k: nat, indent: int, path: set<int>)
    requires Closed(g) && t in g && k <= |g[t]|
    ensures |RenderTo(g, flat, mark, t, k, indent, path)| == |RenderTo(g, flat, "", t, k, indent, path)| + |mark| * CutTo(g, t, k, path)
    decreases |Left(g, path)|, 2, k
  {
    hide RenderElement, CutIn, Left;
    if k > 0 {
      MarkLengthTo(g, flat, mark, t, k - 1, indent, path);
      MarkLengthElement(g, flat, mark, t, k - 1, indent, path);
      Distribute(|mark|, CutTo(g, t, k - 1, path), CutIn(g, g[t][k - 1].val, path));
    }
  }

  lemma {:induction false} MarkLengthElement(g: Tables, flat: bool, mark: string, t: int, k: nat, indent: int, path: set<int>)
    requires Closed(g) && t in g && k < |g[t]|
    ensures Known(g, g[t][k].val)
    ensures |RenderElement(g, flat, mark, t, k, indent, path)|
            == |RenderElement(g, flat, "", t, k, indent, path)| + |mark| * CutIn(g, g[t][k].val, path)
    decreases |Left(g, path)|, 1
  {
    hide RenderTable, Cut, Left, Title, Before, After;
    var v := g[t][k].val;
    assert Known(g, v);
    if v.Arr? { MarkLength(g, flat, mark, v.t, indent + 8, path); }
    if v.Obj? && v.props.Table? { MarkLength(g, flat, mark, v.props.t, indent + 8, path); }
  }

  lemma Distribute(n: int, a: int, b: int) ensures n * (a + b) == n * a + n * b { }

  lemma {:induction false} CutIff(g: Tables, t: int, path: set<int>)
    requires Closed(g) && t in g
    ensures Cut(g, t, path) > 0 <==> Cuts(g, t, path)
    decreases |Left(g, path)|, 0
  {
    hide CutTo, Left, Contains;
    if t !in path {
      Deeper(g, path, t);
      CutToIff(g, t, |g[t]|, path + {t});
      forall u ensures Contains(g, t, u) <==> ContainsBelow(g, t, |g[t]|, u) { ContainsAll(g, t, u); }
    }
  }

  /** One of the first `k` elements of table `t` holds table `u`. */
  ghost predicate ContainsBelow(g: Tables, t: int, k: int, u: int)
    requires t in g
  {
    u in g && exists j :: 0 <= j < k && j < |g[t]| && u in TableOf(g[t][j].val)
  }

  lemma ContainsAll(g: Tables, t: int, u: int)
    requires t in g
    ensures Contains(g, t, u) <==> ContainsBelow(g, t, |g[t]|, u)
  {
  }

  lemma ContainsNext(g: Tables, t: int, k: nat, u: int)
    requires Closed(g) && t in g && 0 < k <= |g[t]|
    ensures ContainsBelow(g, t, k, u) <==> ContainsBelow(g, t, k - 1, u) || u in TableOf(g[t][k - 1].val)
  {
    assert Known(g, g[t][k - 1].val);
  }

  lemma {:induction false} CutToIff(g: Tables, t: int, k: nat, path: set<int>)
    requires Closed(g) && t in g && k <= |g[t]|
    ensures CutTo(g, t, k, path) > 0 <==> exists u :: ContainsBelow(g, t, k, u) && Cuts(g, u, path)
    decreases |Left(g, path)|, 1, k
  {
    hide Cut, Cuts, Left;
    if k > 0 {
      CutToIff(g, t, k - 1, path);
      var v := g[t][k - 1].val;
      assert Known(g, v);
      forall u | u in TableOf(v) ensures Cut(g, u, path) > 0 <==> Cuts(g, u, path) { CutIff(g, u, path); }
      CutInIff(g, v, path);
      hide ContainsBelow;
      forall u
        ensures ContainsBelow(g, t, k, u) <==> ContainsBelow(g, t, k - 1, u) || u in TableOf(v)
      {
        ContainsNext(g, t, k, u);
      }
    }
  }

  lemma CutInIff(g: Tables, v: Val, path: set<int>)
    requires Closed(g) && Known(g, v)
    ensures forall u :: u in TableOf(v) ==> u in g
    ensures CutIn(g, v, path) > 0 <==> exists u :: u in TableOf(v) && Cut(g, u, path) > 0
  {
    hide Cut;
    if v.Arr? { assert v.t in TableOf(v); }
    if v.Obj? && v.props.Table? { assert v.props.t in TableOf(v); }
  }

  /** The printed text shows a mark, so differs from the text without marks, exactly if `Cuts`. */
  lemma MarkedIff(g: Tables, flat: bool, t: int, indent: int, path: set<int>)
    requires Closed(g) && t in g
    ensures RenderTable(g, flat, RECURSION, t, indent, path) == RenderTable(g, flat, "", t, indent, path) <==> !Cuts(g, t, path)
  {
    hide RenderTable, Cut, Cuts;
    CutIff(g, t, path);
    MarkLength(g, flat, RECURSION, t, indent, path);
    assert |RECURSION| == 12;
    if !Cuts(g, t, path) { Unmarked(g, flat, RECURSION, "", t, indent, path); }
  }

  /** What that says of a text with the rendering written behind it. */
  lemma WrittenTable(g: Tables, flat: bool, t: int, indent: int, path: set<int>, text: string)
    requires Closed(g) && t in g
    ensures var marked, plain := RenderTable(g, flat, RECURSION, t, indent, path), RenderTable(g, flat, "", t, indent, path);
            && (text + marked == text + plain <==> !Cuts(g, t, path))
            && |marked| == |plain| + |RECURSION| * Cut(g, t, path)
  {
    hide RenderTable, Cut, Cuts;
    MarkedIff(g, flat, t, indent, path);
    MarkLength(g, flat, RECURSION, t, indent, path);
    Behind(text, RenderTable(g, flat, RECURSION, t, indent, path), RenderTable(g, flat, "", t, indent, path));
  }

  lemma Written(g: Tables, flat: bool, v: Val, indent: int, path: set<int>, text: string)
    requires Closed(g) && Known(g, v)
    ensures text + Render(g, flat, RECURSION, v, indent, path) == text + Render(g, flat, "", v, indent, path)
            <==> forall t :: t in TableOf(v) ==> !Cuts(g, t, path)
  {
    hide Title, RenderTable, Cuts;
    Behind(text, Render(g, flat, RECURSION, v, indent, path), Render(g, flat, "", v, indent, path));
    forall t | t in TableOf(v)
      ensures Render(g, flat, RECURSION, v, indent, path) == Render(g, flat, "", v, indent, path) <==> !Cuts(g, t, path)
    {
      MarkedIff(g, flat, t, indent, path);
      Behind(Title(flat, v), RenderTable(g, flat, RECURSION, t, indent, path), RenderTable(g, flat, "", t, indent, path));
    }
    if TableOf(v) != {} { var t :| t in TableOf(v); }
  }

  lemma Behind(text: string, a: string, b: string)
    ensures text + a == text + b <==> a == b
  {
    if text + a == text + b {
      assert a == (text + a)[|text|..] && b == (text + b)[|text|..];
    }
  }

  lemma {:induction false} Unmarked(g: Tables, flat: bool, mark: string, other: string, t: int, indent: int, path: set<int>)
    requires Closed(g) && t in g && !Cuts(g, t, path)
    ensures RenderTable(g, flat, mark, t, indent, path) == RenderTable(g, flat, other, t, indent, path)
    decreases |Left(g, path)|, 0
  {
    hide RenderTo, Left, Contains;
    Deeper(g, path, t);
    UnmarkedTo(g, flat, mark, other, t, |g[t]|, indent, path + {t});
  }

  lemma {:induction false} UnmarkedTo(g: Tables, flat: bool, mark: string, other: string, t: int, k: nat, indent: int, path: set<int>)
    requires Closed(g) && t in g && k <= |g[t]| && forall u :: Contains(g, t, u) ==> !Cuts(g, u, path)
    ensures RenderTo(g, flat, mark, t, k, indent, path) == RenderTo(g, flat, other, t, k, indent, path)
    decreases |Left(g, path)|, 1, k
  {
    hide RenderTable, Cuts, Spaces, Left;
    if k > 0 {
      UnmarkedTo(g, flat, mark, other, t, k - 1, indent, path);
      var v := g[t][k - 1].val;
      assert Known(g, v);
      forall u | u in TableOf(v) ensures Contains(g, t, u) { }
      if v.Arr? { Unmarked(g, flat, mark, other, v.t, indent + 8, path); }
      if v.Obj? && v.props.Table? { Unmarked(g, flat, mark, other, v.props.t, indent + 8, path); }
      assert Render(g, flat, mark, v, indent + 8, path) == Render(g, flat, other, v, indent + 8, path);
    }
  }

  /** A walk from table to contained table. */
  ghost predicate Walk(g: Tables, c: seq<int>)
  {
    |c| > 0 && (forall i :: 0 <= i < |c| ==> c[i] in g) && forall i :: 0 < i < |c| ==> Contains(g, c[i - 1], c[i])
  }

  /** The walk ends where it has been before, or on the given path. */
  ghost predicate ComesBack(c: seq<int>, path: set<int>)
  {
    |c| > 0 && (c[|c| - 1] in path || exists i :: 0 <= i < |c| - 1 && c[i] == c[|c| - 1])
  }

  /** The mark appears exactly if some walk from the table comes back. */
  lemma CutsIff(g: Tables, t: int, path: set<int>)
    requires t in g
    ensures Cuts(g, t, path) <==> exists c :: Walk(g, c) && c[0] == t && ComesBack(c, path)
  {
    if Cuts(g, t, path) {
      var c := CutWalk(g, t, path);
    }
    if c :| Walk(g, c) && c[0] == t && ComesBack(c, path) {
      WalkCuts(g, c, path);
    }
  }

  lemma {:induction false} CutWalk(g: Tables, t: int, path: set<int>) returns (c: seq<int>)
    requires t in g && Cuts(g, t, path)
    ensures Walk(g, c) && c[0] == t && ComesBack(c, path)
    decreases |Left(g, path)|
  {
    if t in path {
      c := [t];
    } else {
      var u :| Contains(g, t, u) && Cuts(g, u, path + {t});
      Deeper(g, path, t);
      var d := CutWalk(g, u, path + {t});
      c := [t] + d;
      forall i | 0 < i < |c| ensures Contains(g, c[i - 1], c[i]) { if i > 1 { assert Contains(g, d[i - 2], d[i - 1]); } }
      var n := |d| - 1;
      assert c[n + 1] == d[n];
      if d[n] == t {
        assert c[0] == c[n + 1];
      } else if d[n] !in path {
        var i :| 0 <= i < n && d[i] == d[n];
        assert c[i + 1] == c[n + 1];
      }
    }
  }

  lemma {:induction false} WalkCuts(g: Tables, c: seq<int>, path: set<int>)
    requires Walk(g, c) && ComesBack(c, path)
    ensures Cuts(g, c[0], path)
    decreases |c|
  {
    var n := |c| - 1;
    if n > 0 && c[0] !in path {
      var d := c[1..];
      forall i | 0 < i < |d| ensures Contains(g, d[i - 1], d[i]) { assert Contains(g, c[i], c[i + 1]); }
      assert d[n - 1] == c[n];
      if c[n] !in path && c[n] != c[0] {
        var i :| 0 <= i < n && c[i] == c[n];
        assert d[i - 1] == d[n - 1];
      }
      Deeper(g, path, c[0]);
      WalkCuts(g, d, path + {c[0]});
      assert Contains(g, c[0], c[1]);
    }
  }

  /** Without a cut, the text is the same wherever the table is printed from. */
  lemma {:induction false} UncutSame(g: Tables, flat: bool, mark: string, t: int, indent: int, p: set<int>, q: set<int>)
    requires Closed(g) && t in g && !Cuts(g, t, p) && !Cuts(g, t, q)
    ensures RenderTable(g, flat, mark, t, indent, p) == RenderTable(g, flat, mark, t, indent, q)
    decreases |Left(g, p)|, 0
  {
    Deeper(g, p, t);
    Deeper(g, q, t);
    UncutElements(g, flat, mark, t, |g[t]|, indent, p + {t}, q + {t});
  }

  lemma {:induction false} UncutElements(g: Tables, flat: bool, mark: string, t: int, k: nat, indent: int, p: set<int>, q: set<int>)
    requires Closed(g) && t in g && k <= |g[t]|
    requires forall u :: Contains(g, t, u) ==> !Cuts(g, u, p) && !Cuts(g, u, q)
    ensures RenderTo(g, flat, mark, t, k, indent, p) == RenderTo(g, flat, mark, t, k, indent, q)
    decreases |Left(g, p)|, 1, k
  {
    if k > 0 {
      UncutElements(g, flat, mark, t, k - 1, indent, p, q);
      var v := g[t][k - 1].val;
      assert Known(g, v);
      forall u | u in TableOf(v) ensures Contains(g, t, u) { }
      if v.Arr? { UncutSame(g, flat, mark, v.t, indent + 8, p, q); }
      if v.Obj? && v.props.Table? { UncutSame(g, flat, mark, v.props.t, indent + 8, p, q); }
      assert Render(g, flat, mark, v, indent + 8, p) == Render(g, flat, mark, v, indent + 8, q);
    }
  }

  // ---------- keys and values ----------

  /** `s` is a part of `t`. */
  ghost predicate Within(s: string, t: string) { exists a, b :: Around(a, s, b, t) }

  predicate Around(a: string, s: string, b: string, t: string) { t == a + s + b }

  lemma AtJoin(a: string, s: string, b: string)
    ensures Within(s, a + s + b)
  {
    assert Around(a, s, b, a + s + b);
  }

  lemma WithinTrans(r: string, s: string, t: string)
    requires Within(r, s) && Within(s, t)
    ensures Within(r, t)
  {
    var a, b :| Around(a, r, b, s);
    var c, d :| Around(c, s, d, t);
    assert c + (a + r + b) + d == (c + a) + r + (b + d);
    assert Around(c + a, r, b + d, t);
  }

  lemma WithinPart(s: string, a: string, t: string, b: string)
    requires Within(s, t)
    ensures Within(s, a + t + b)
  {
    AtJoin(a, t, b);
    WithinTrans(s, t, a + t + b);
  }

  lemma {:induction false} ElementShown(g: Tables, flat: bool, mark: string, t: int, n: nat, k: nat, indent: int, path: set<int>)
    requires Closed(g) && t in g && k < n <= |g[t]|
    ensures Within(RenderElement(g, flat, mark, t, k, indent, path), RenderTo(g, flat, mark, t, n, indent, path))
    decreases n
  {
    hide RenderElement, Within;
    var before, last := RenderTo(g, flat, mark, t, n - 1, indent, path), RenderElement(g, flat, mark, t, n - 1, indent, path);
    if k == n - 1 {
      AtJoin(before, last, "");
      assert before + last + "" == before + last;
    } else {
      ElementShown(g, flat, mark, t, n - 1, k, indent, path);
      WithinPart(RenderElement(g, flat, mark, t, k, indent, path), "", before, last);
      assert "" + before + last == before + last;
    }
  }

  /** What a table that is printed shows of each element: the key in brackets, and the rendering of the value. */
  lemma KeyShown(g: Tables, flat: bool, mark: string, t: int, k: nat, indent: int, path: set<int>)
    requires Closed(g) && t in g && t !in path && k < |g[t]|
    ensures Known(g, g[t][k].val)
    ensures Within("[" + g[t][k].key + "] => " + Render(g, flat, mark, g[t][k].val, indent + 8, path + {t}),
                   RenderTable(g, flat, mark, t, indent, path))
  {
    hide Render, Within, Spaces, RenderTo;
    assert Known(g, g[t][k].val);
    var text := Render(g, flat, mark, g[t][k].val, indent + 8, path + {t});
    var s := "[" + g[t][k].key + "] => " + text;
    var e := RenderElement(g, flat, mark, t, k, indent, path + {t});
    var lead := if flat then (if k > 0 then "," else "") else Spaces(indent + 4);
    assert e == lead + s + After(flat);
    AtJoin(lead, s, After(flat));
    ElementShown(g, flat, mark, t, |g[t]|, k, indent, path + {t});
    WithinTrans(s, e, RenderTo(g, flat, mark, t, |g[t]|, indent, path + {t}));
    WithinPart(s, Open(flat, indent), RenderTo(g, flat, mark, t, |g[t]|, indent, path + {t}), Close(flat, indent));
  }

  /** A walk without repetition that keeps off the path: nothing on it is cut off. */
  ghost predicate Free(c: seq<int>, path: set<int>)
  {
    (forall i :: 0 <= i < |c| ==> c[i] !in path) && forall i, j :: 0 <= i < j < |c| ==> c[i] != c[j]
  }

  /** Every scalar that can be reached from a table is in its text, behind its key; so is the name of every
      class and the head of every array. */
  lemma {:induction false} ScalarShown(g: Tables, flat: bool, mark: string, c: seq<int>, k: nat, indent: int, path: set<int>)
    requires Closed(g) && Walk(g, c) && Free(c, path) && k < |g[c[|c| - 1]]|
    ensures var e := g[c[|c| - 1]][k];
            Within("[" + e.key + "] => " + Title(flat, e.val), RenderTable(g, flat, mark, c[0], indent, path))
    decreases |c|
  {
    hide Render, RenderTable, Within, Title;
    var t := c[0];
    var e := g[c[|c| - 1]][k];
    var s := "[" + e.key + "] => " + Title(flat, e.val);
    if |c| == 1 {
      KeyShown(g, flat, mark, t, k, indent, path);
      HeadShown(g, flat, mark, t, k, indent, path);
      var text := Render(g, flat, mark, e.val, indent + 8, path + {t});
      WithinTrans(s, "[" + e.key + "] => " + text, RenderTable(g, flat, mark, t, indent, path));
    } else {
      var d := c[1..];
      assert Contains(g, c[0], c[1]);
      forall i | 0 < i < |d| ensures Contains(g, d[i - 1], d[i]) { assert Contains(g, c[i], c[i + 1]); }
      ScalarShown(g, flat, mark, d, k, indent + 8, path + {t});
      var j := TableShown(g, flat, mark, t, d[0], indent, path);
      WithinTrans(s, RenderTable(g, flat, mark, d[0], indent + 8, path + {t}), RenderTable(g, flat, mark, t, indent, path));
    }
  }

  lemma HeadShown(g: Tables, flat: bool, mark: string, t: int, k: nat, indent: int, path: set<int>)
    requires Closed(g) && t in g && k < |g[t]| && Known(g, g[t][k].val)
    ensures var e := g[t][k];
            Within("[" + e.key + "] => " + Title(flat, e.val), "[" + e.key + "] => " + Render(g, flat, mark, e.val, indent + 8, path + {t}))
  {
    hide Title, RenderTable, Within;
    var e := g[t][k];
    KeyBefore(e.key, Title(flat, e.val), Render(g, flat, mark, e.val, indent + 8, path + {t})[|Title(flat, e.val)|..]);
  }

  /** What stands behind a key and a head. */
  lemma KeyBefore(key: string, head: string, rest: string)
    ensures Within("[" + key + "] => " + head, "[" + key + "] => " + (head + rest))
    ensures Within(rest, "[" + key + "] => " + (head + rest))
  {
    hide Within;
    var s := "[" + key + "] => ";
    AtJoin("", s + head, rest);
    assert "" + (s + head) + rest == s + (head + rest);
    AtJoin(s + head, rest, "");
    assert (s + head) + rest + "" == s + (head + rest);
  }

  /** The text of a table holds that of every table contained in it. */
  lemma TableShown(g: Tables, flat: bool, mark: string, t: int, u: int, indent: int, path: set<int>) returns (k: nat)
    requires Closed(g) && t !in path && Contains(g, t, u)
    ensures k < |g[t]| && u in TableOf(g[t][k].val)
    ensures Within(RenderTable(g, flat, mark, u, indent + 8, path + {t}), RenderTable(g, flat, mark, t, indent, path))
  {
    k :| k < |g[t]| && u in TableOf(g[t][k].val);
    hide RenderTable, Within, Title;
    var v := g[t][k].val;
    KeyShown(g, flat, mark, t, k, indent, path);
    var inner := RenderTable(g, flat, mark, u, indent + 8, path + {t});
    var text := Render(g, flat, mark, v, indent + 8, path + {t});
    KeyBefore(g[t][k].key, Title(flat, v), inner);
    WithinTrans(inner, "[" + g[t][k].key + "] => " + text, RenderTable(g, flat, mark, t, indent, path));
  }
}
