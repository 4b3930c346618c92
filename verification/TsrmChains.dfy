/** The bucket chains of the resource manager as linked entries: the loops that search, unlink and
    sweep them, against plain sequences. */
module TsrmChains {
  import opened Tsrm

  datatype Node = Node(thread: nat, next: nat)

  type Nodes = map<nat, Node>

  /** From `p` the links run through `xs` and end at `q`. */
  ghost predicate Path(nodes: Nodes, p: nat, xs: seq<nat>, q: nat)
    decreases |xs|
  {
    if xs == [] then p == q else p == xs[0] && p != 0 && p in nodes && Path(nodes, nodes[p].next, xs[1..], q)
  }

  lemma {:induction false} PathFrame(nodes: Nodes, nodes': Nodes, p: nat, xs: seq<nat>, q: nat)
    requires Path(nodes, p, xs, q) && forall x :: x in xs && x in nodes ==> x in nodes' && nodes'[x] == nodes[x]
    ensures Path(nodes', p, xs, q)
    decreases |xs|
  {
    if xs != [] {
      assert xs[0] in xs;
      PathFrame(nodes, nodes', nodes[p].next, xs[1..], q);
    }
  }

  lemma {:induction false} PathJoin(nodes: Nodes, p: nat, xs: seq<nat>, m: nat, ys: seq<nat>, q: nat)
    requires Path(nodes, p, xs, m) && Path(nodes, m, ys, q)
    ensures Path(nodes, p, xs + ys, q)
    decreases |xs|
  {
    if xs == [] {
      assert [] + ys == ys;
    } else {
      assert (xs + ys)[1..] == xs[1..] + ys;
      PathJoin(nodes, nodes[p].next, xs[1..], m, ys, q);
    }
  }

  lemma {:induction false} PathNodes(nodes: Nodes, p: nat, xs: seq<nat>, q: nat)
    requires Path(nodes, p, xs, q)
    ensures forall x :: x in xs ==> x in nodes && x != 0
    decreases |xs|
  {
    if xs != [] {
      PathNodes(nodes, nodes[p].next, xs[1..], q);
      forall x | x in xs ensures x in nodes && x != 0 { if x != xs[0] { assert x in xs[1..]; } }
    }
  }

  /** The entry `x`, if it is one of thread `t`. */
  ghost function Own(nodes: Nodes, x: nat, t: nat): seq<nat>
  {
    if x in nodes && nodes[x].thread == t then [x] else []
  }

  /** The entries of thread `t`, in order. */
  ghost function OfThread(nodes: Nodes, xs: seq<nat>, t: nat): seq<nat>
  {
    if xs == [] then []
    else Own(nodes, xs[0], t) + OfThread(nodes, xs[1..], t)
  }

  lemma {:induction false} OfThreadSpec(nodes: Nodes, xs: seq<nat>, t: nat)
    requires Distinct(xs)
    ensures Distinct(OfThread(nodes, xs, t))
    ensures forall x :: x in OfThread(nodes, xs, t) <==> x in xs && x in nodes && nodes[x].thread == t
  {
    if xs != [] {
      var r := xs[1..];
      OfThreadSpec(nodes, r, t);
      forall x ensures x in xs <==> x == xs[0] || x in r { }
      forall x | x in r ensures x != xs[0] { var i :| 0 <= i < |r| && r[i] == x; assert xs[i + 1] == x; }
      if xs[0] in nodes && nodes[xs[0]].thread == t { FrontDistinct(xs[0], OfThread(nodes, r, t)); }
    }
  }

  /** One more entry of the thread, or of another, at the end. */
  lemma {:induction false} OfThreadSnoc(nodes: Nodes, xs: seq<nat>, x: nat, t: nat)
    ensures OfThread(nodes, xs + [x], t) == OfThread(nodes, xs, t) + Own(nodes, x, t)
    decreases |xs|
  {
    hide Own;
    if xs == [] {
      OfThreadCons(nodes, [x], t);
      assert [x][1..] == [];
    } else {
      var r := xs[1..];
      assert (xs + [x])[1..] == r + [x] && (xs + [x])[0] == xs[0];
      OfThreadCons(nodes, xs + [x], t);
      OfThreadCons(nodes, xs, t);
      OfThreadSnoc(nodes, r, x, t);
    }
  }

  lemma OfThreadCons(nodes: Nodes, xs: seq<nat>, t: nat)
    requires xs != []
    ensures OfThread(nodes, xs, t) == Own(nodes, xs[0], t) + OfThread(nodes, xs[1..], t)
  {
  }

  class Bucket {
    var head: nat
    var nodes: Nodes

    ghost predicate Holds(xs: seq<nat>)
      reads this
    {
      Path(nodes, head, xs, 0) && Distinct(xs)
    }

    /** The search of ts_resource_ex: the first entry of the thread, or 0. */
    method Search(t: nat, ghost xs: seq<nat>) returns (e: nat)
      requires Holds(xs)
      ensures e == 0 <==> forall x :: x in xs ==> x in nodes && nodes[x].thread != t
      ensures e != 0 ==> e in xs && e in nodes && nodes[e].thread == t
    {
      ghost var k := 0;
      e := head;
      PathNodes(nodes, head, xs, 0);
      assert xs[0..] == xs;
      while e != 0 && nodes[e].thread != t
        invariant 0 <= k <= |xs| && Path(nodes, e, xs[k..], 0) && (e != 0 ==> k < |xs| && e == xs[k] && e in nodes)
        invariant e == 0 ==> k == |xs|
        invariant forall i :: 0 <= i < k ==> nodes[xs[i]].thread != t
        decreases |xs| - k
      {
        assert xs[k..][1..] == xs[k + 1..];
        e := nodes[e].next;
        k := k + 1;
      }
    }

    /** The loop of ts_free_thread: the first entry of the thread is unlinked and freed. */
    method FreeThread(t: nat, ghost xs: seq<nat>) returns (e: nat)
      requires Holds(xs)
      modifies this
      ensures e == 0 ==>
                nodes == old(nodes) && head == old(head) && forall x :: x in xs ==> x in nodes && nodes[x].thread != t
      ensures e != 0 ==> e in xs && e in old(nodes) && old(nodes)[e].thread == t && Holds(Without(xs, e))
      ensures e != 0 ==> forall x :: x in nodes <==> x in old(nodes) && x != e
      ensures forall x :: x in nodes && x in old(nodes) ==>
                nodes[x].thread == old(nodes)[x].thread && (x !in xs ==> nodes[x] == old(nodes)[x])
    {
      hide Distinct, Without;
      ghost var k := 0;
      e := head;
      var last := 0;
      PathNodes(nodes, head, xs, 0);
      assert xs[0..] == xs && xs[..0] == [];
      while e != 0 && nodes[e].thread != t
        invariant 0 <= k <= |xs| && Path(nodes, head, xs[..k], e) && Path(nodes, e, xs[k..], 0)
        invariant e != 0 ==> k < |xs| && e == xs[k] && e in nodes
        invariant e == 0 ==> k == |xs|
        invariant e != 0 ==> last == if k == 0 then 0 else xs[k - 1]
        invariant forall i :: 0 <= i < k ==> xs[i] in nodes && nodes[xs[i]].thread != t
        invariant nodes == old(nodes) && head == old(head)
        decreases |xs| - k
      {
        Advance(nodes, head, xs, k, e);
        if nodes[e].next != 0 {
          last := e;
        }
        e := nodes[e].next;
        k := k + 1;
      }
      if e != 0 {
        var next := nodes[e].next;
        assert xs[k..][1..] == xs[k + 1..];
        ghost var before := nodes;
        TailApart(xs, k);
        Unlink(e, last, next);
        WithoutAt(xs, k);
        WithoutElems(xs, e);
        Unlinked(before, nodes, old(head), head, xs, k, last, next);
      }
    }

    /** The entry `e` behind `last`, or at the head, leaves the chain and is freed. */
    method Unlink(e: nat, last: nat, next: nat)
      requires last != 0 ==> last in nodes
      modifies this
      ensures last != 0 ==> head == old(head) && nodes == old(nodes)[last := old(nodes)[last].(next := next)] - {e}
      ensures last == 0 ==> head == next && nodes == old(nodes) - {e}
    {
      if last != 0 {
        nodes := nodes[last := nodes[last].(next := next)];
      } else {
        head := next;
      }
      nodes := nodes - {e};
    }

    /** The loop of ts_free_worker_threads: of this bucket, only the entries of the thread remain. */
    method Sweep(t: nat, ghost xs: seq<nat>)
      requires Holds(xs)
      modifies this
      ensures Holds(OfThread(old(nodes), xs, t))
      ensures forall x :: x in nodes <==> x in old(nodes) && (x in xs ==> old(nodes)[x].thread == t)
      ensures forall x :: x in nodes ==> nodes[x].thread == old(nodes)[x].thread && (x !in xs ==> nodes[x] == old(nodes)[x])
    {
      hide Swept;
      var e: nat, last: nat := head, 0;
      ghost var k: nat, kept: seq<nat> := 0, [];
      SweepStart(nodes, head, xs, t);
      while e != 0
        invariant Swept(old(nodes), nodes, head, xs, k, t, kept, e, last)
        decreases |xs| - k
      {
        SweepAt(old(nodes), nodes, head, xs, k, t, kept, e, last);
        var next := nodes[e].next;
        ghost var before, head0 := nodes, head;
        if nodes[e].thread != t {
          Unlink(e, last, next);
          SweepDrop(old(nodes), before, nodes, head0, head, xs, k, t, kept, e, last);
          e := if last != 0 then nodes[last].next else head;
        } else {
          SweepKeep(old(nodes), nodes, head, xs, k, t, kept, e, last);
          kept := kept + [e];
          if next != 0 {
            last := e;
          }
          e := next;
        }
        k := k + 1;
      }
      SweepEnd(old(nodes), nodes, head, xs, k, t, kept, last);
    }
  }

  /** A sweep that has dealt with the first `k` entries: those of the thread are kept. */
  ghost predicate Swept(old': Nodes, nodes: Nodes, head: nat, xs: seq<nat>, k: nat, t: nat, kept: seq<nat>, e: nat, last: nat)
  {
    && k <= |xs| && Distinct(xs) && Path(nodes, e, xs[k..], 0) && Path(nodes, head, kept, e)
    && kept == OfThread(old', xs[..k], t) && (e != 0 ==> last == if kept == [] then 0 else kept[|kept| - 1])
    && (forall x :: x in xs ==> x in old') && SweptNodes(old', nodes, xs[..k], t)
  }

  /** Of the entries `xs`, those of other threads are gone; only links of the others may have changed. */
  ghost predicate SweptNodes(old': Nodes, nodes: Nodes, xs: seq<nat>, t: nat)
  {
    && (forall x :: x in nodes <==> x in old' && (x in xs ==> old'[x].thread == t))
    && (forall x :: x in nodes ==> nodes[x].thread == old'[x].thread && (x !in xs ==> nodes[x] == old'[x]))
  }

  lemma SweepStart(nodes: Nodes, head: nat, xs: seq<nat>, t: nat)
    requires Path(nodes, head, xs, 0) && Distinct(xs)
    ensures Swept(nodes, nodes, head, xs, 0, t, [], head, 0)
  {
    hide Distinct, OfThread, Path;
    PathNodes(nodes, head, xs, 0);
    NoneKept(nodes, t);
    assert xs[0..] == xs && xs[..0] == [];
  }

  lemma SweepAt(old': Nodes, nodes: Nodes, head: nat, xs: seq<nat>, k: nat, t: nat, kept: seq<nat>, e: nat, last: nat)
    requires Swept(old', nodes, head, xs, k, t, kept, e, last) && e != 0
    ensures k < |xs| && e in nodes && (last != 0 ==> last in nodes)
  {
    hide Distinct, OfThread, Path;
    PathEnds(nodes, e, xs, k);
    PathNodes(nodes, head, kept, e);
  }

  lemma SweepKeep(old': Nodes, nodes: Nodes, head: nat, xs: seq<nat>, k: nat, t: nat, kept: seq<nat>, e: nat, last: nat)
    requires Swept(old', nodes, head, xs, k, t, kept, e, last) && e != 0 && k < |xs| && e in nodes
    requires nodes[e].thread == t
    ensures Swept(old', nodes, head, xs, k + 1, t, kept + [e], nodes[e].next, if nodes[e].next != 0 then e else last)
  {
    hide Distinct, OfThread, Path;
    PathEnds(nodes, e, xs, k);
    assert xs[..k] + [e] == xs[..k + 1];
    forall x ensures x in xs[..k + 1] <==> x in xs[..k] || x == e { }
    TailApart(xs, k);
    OfThreadSnoc(old', xs[..k], e, t);
    OnePath(nodes, e);
    PathJoin(nodes, head, kept, e, [e], nodes[e].next);
  }

  lemma SweepDrop(old': Nodes, nodes: Nodes, nodes': Nodes, head: nat, head': nat, xs: seq<nat>, k: nat, t: nat,
      kept: seq<nat>, e: nat, last: nat)
    requires Swept(old', nodes, head, xs, k, t, kept, e, last) && e != 0 && k < |xs| && e in nodes
    requires nodes[e].thread != t
    requires last != 0 ==>
              last in nodes && head' == head && nodes' == nodes[last := nodes[last].(next := nodes[e].next)] - {e}
    requires last == 0 ==> head' == nodes[e].next && nodes' == nodes - {e}
    ensures Swept(old', nodes', head', xs, k + 1, t, kept, nodes[e].next, last)
    ensures if last != 0 then last in nodes' && nodes'[last].next == nodes[e].next else head' == nodes[e].next
  {
    hide Distinct, OfThread, Path, SweptNodes;
    PathEnds(nodes, e, xs, k);
    assert xs[..k] + [e] == xs[..k + 1];
    TailApart(xs, k);
    OfThreadSnoc(old', xs[..k], e, t);
    ForeignEntry(old', nodes, xs[..k], t, e);
    PrefixDistinct(xs, k);
    OfThreadSpec(old', xs[..k], t);
    PathNodes(nodes, head, kept, e);
    if kept != [] { assert kept[|kept| - 1] in kept; }
    DropNodes(old', nodes, nodes', xs[..k], t, e, last, nodes[e].next);
    Bypassed(nodes, nodes', head, head', xs, k, kept, e, last, nodes[e].next);
  }

  lemma ForeignEntry(old': Nodes, nodes: Nodes, xs: seq<nat>, t: nat, e: nat)
    requires SweptNodes(old', nodes, xs, t) && e in nodes && nodes[e].thread != t
    ensures e in old' && Own(old', e, t) == []
  {
  }

  /** The entries that are left when a foreign one has gone. */
  lemma DropNodes(old': Nodes, nodes: Nodes, nodes': Nodes, xs: seq<nat>, t: nat, e: nat, last: nat, next: nat)
    requires SweptNodes(old', nodes, xs, t) && e in nodes && nodes[e].thread != t && e !in xs
    requires last != 0 ==> last in nodes && last in xs && nodes' == nodes[last := nodes[last].(next := next)] - {e}
    requires last == 0 ==> nodes' == nodes - {e}
    ensures SweptNodes(old', nodes', xs + [e], t)
  {
    forall x ensures x in xs + [e] <==> x in xs || x == e { }
  }

  lemma SweepEnd(old': Nodes, nodes: Nodes, head: nat, xs: seq<nat>, k: nat, t: nat, kept: seq<nat>, last: nat)
    requires Swept(old', nodes, head, xs, k, t, kept, 0, last)
    ensures var own := OfThread(old', xs, t); Path(nodes, head, own, 0) && Distinct(own)
    ensures forall x :: x in nodes <==> x in old' && (x in xs ==> old'[x].thread == t)
    ensures forall x :: x in nodes ==> nodes[x].thread == old'[x].thread && (x !in xs ==> nodes[x] == old'[x])
  {
    hide Distinct, OfThread, Path;
    PathEnds(nodes, 0, xs, k);
    assert xs[..k] == xs;
    OfThreadSpec(old', xs, t);
  }

  lemma OnePath(nodes: Nodes, e: nat)
    requires e in nodes && e != 0
    ensures Path(nodes, e, [e], nodes[e].next)
  {
  }

  /** One step along a chain, and how its end shows. */
  lemma PathEnds(nodes: Nodes, e: nat, xs: seq<nat>, k: nat)
    requires k <= |xs| && Path(nodes, e, xs[k..], 0)
    ensures e == 0 <==> k == |xs|
    ensures e != 0 ==> e == xs[k] && e in nodes && Path(nodes, nodes[e].next, xs[k + 1..], 0)
  {
    if k < |xs| { assert xs[k..][1..] == xs[k + 1..]; }
  }

  lemma NoneKept(nodes: Nodes, t: nat)
    ensures OfThread(nodes, [], t) == [] && forall p: nat :: Path(nodes, p, [], p)
  {
  }

  lemma Advance(nodes: Nodes, head: nat, xs: seq<nat>, k: nat, e: nat)
    requires k < |xs| && Path(nodes, head, xs[..k], e) && Path(nodes, e, xs[k..], 0) && e == xs[k]
    ensures e in nodes && Path(nodes, head, xs[..k + 1], nodes[e].next) && Path(nodes, nodes[e].next, xs[k + 1..], 0)
  {
    assert xs[k..][1..] == xs[k + 1..];
    assert Path(nodes, e, [e], nodes[e].next);
    PathJoin(nodes, head, xs[..k], e, [e], nodes[e].next);
    assert xs[..k] + [e] == xs[..k + 1];
  }

  lemma PrefixDistinct(xs: seq<nat>, k: nat)
    requires Distinct(xs) && k <= |xs|
    ensures Distinct(xs[..k])
  {
  }

  lemma TailApart(xs: seq<nat>, k: nat)
    requires Distinct(xs) && k < |xs|
    ensures xs[k] !in xs[..k] && forall x :: x in xs[k + 1..] ==> x != xs[k] && x !in xs[..k]
  {
    forall x | x in xs[k + 1..] ensures x != xs[k] && x !in xs[..k] {
      var i :| 0 <= i < |xs| - k - 1 && xs[k + 1..][i] == x;
      assert xs[k + 1 + i] == x;
    }
  }

  lemma {:induction false} WithoutAt(xs: seq<nat>, k: nat)
    requires Distinct(xs) && k < |xs|
    ensures Without(xs, xs[k]) == xs[..k] + xs[k + 1..]
  {
    if k > 0 {
      WithoutAt(xs[1..], k - 1);
      assert xs[1..][..k - 1] == xs[1..k] && xs[1..][k..] == xs[k + 1..];
      assert [xs[0]] + xs[1..k] == xs[..k];
    }
  }

  /** The link in front of the removed entry now skips it. */
  lemma Bypassed(nodes: Nodes, nodes': Nodes, head: nat, head': nat, xs: seq<nat>, k: nat, kept: seq<nat>, e: nat,
      last: nat, next: nat)
    requires k < |xs| && Distinct(xs) && e == xs[k] && e != 0 && Path(nodes, head, kept, e)
    requires Path(nodes, next, xs[k + 1..], 0)
    requires Distinct(kept) && forall x :: x in kept ==> x in xs[..k]
    requires last == if kept == [] then 0 else kept[|kept| - 1]
    requires kept != [] ==>
              last in nodes && last != 0 && nodes' == nodes[last := nodes[last].(next := next)] - {e} && head' == head
    requires kept == [] ==> nodes' == nodes - {e} && head' == next
    ensures Path(nodes', head', kept, next) && Path(nodes', next, xs[k + 1..], 0)
  {
    hide Distinct;
    TailApart(xs, k);
    if kept != [] { assert last in kept; }
    forall x | x in xs[k + 1..] && x in nodes
      ensures x in nodes' && nodes'[x] == nodes[x]
    {
      if kept != [] { assert x != last; }
    }
    PathFrame(nodes, nodes', next, xs[k + 1..], 0);
    if kept != [] { BypassFront(nodes, nodes', head, kept, e, last, next); }
  }

  lemma {:induction false} BypassFront(nodes: Nodes, nodes': Nodes, head: nat, kept: seq<nat>, e: nat, last: nat, next: nat)
    requires Path(nodes, head, kept, e) && Distinct(kept) && e !in kept && kept != [] && last == kept[|kept| - 1]
    requires last != 0
    requires last in nodes && nodes' == nodes[last := nodes[last].(next := next)] - {e}
    ensures Path(nodes', head, kept, next)
    decreases |kept|
  {
    assert head == kept[0] && kept[0] in kept;
    if |kept| == 1 {
      assert kept[1..] == [];
    } else {
      var rest := kept[1..];
      assert rest[|rest| - 1] == last && head != last;
      BypassFront(nodes, nodes', nodes[head].next, rest, e, last, next);
    }
  }

  lemma Unlinked(nodes: Nodes, nodes': Nodes, head: nat, head': nat, xs: seq<nat>, k: nat, last: nat, next: nat)
    requires k < |xs| && Distinct(xs) && xs[k] != 0 && Path(nodes, head, xs[..k], xs[k])
    requires Path(nodes, next, xs[k + 1..], 0)
    requires last == if k == 0 then 0 else xs[k - 1]
    requires k > 0 ==>
              && last in nodes && last != 0 && nodes' == nodes[last := nodes[last].(next := next)] - {xs[k]}
              && head' == head
    requires k == 0 ==> nodes' == nodes - {xs[k]} && head' == next
    ensures Path(nodes', head', xs[..k] + xs[k + 1..], 0)
  {
    hide Distinct;
    PrefixDistinct(xs, k);
    Bypassed(nodes, nodes', head, head', xs, k, xs[..k], xs[k], last, next);
    PathJoin(nodes', head', xs[..k], next, xs[k + 1..], 0);
  }
}
