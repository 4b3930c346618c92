/** ts_resource_ex as a procedure: the lock, the search of the chain, the allocation that unlocks before it
    returns, and the recursive call, while other threads change the table between two locks. */
module TsrmResource {
  import opened Tsrm
  import opened TsrmChains

  /** What the mutex protects: the bucket heads, the linked entries with their slots, the ids, and the
      next free addresses. */
  datatype World = World(table: seq<nat>, nodes: Nodes, storage: map<nat, seq<nat>>, done: seq<bool>, next: nat, first: nat)

  /** Bucket `i` is the chain `xs` of entries whose threads belong there. */
  ghost predicate Chain(w: World, i: nat, xs: seq<nat>)
  {
    && i < |w.table| && Path(w.nodes, w.table[i], xs, 0) && Distinct(xs)
    && forall x :: x in xs ==> x in w.nodes && x in w.storage && 0 < x < w.next && Hash(w.nodes[x].thread, |w.table|) == i
  }

  ghost predicate HasChain(w: World, i: nat) { exists xs :: Chain(w, i, xs) }

  ghost predicate Linked(w: World)
  {
    |w.table| > 0 && w.next > 0 && w.first > 0 && forall i: nat :: i < |w.table| ==> HasChain(w, i)
  }

  /** `e` is the entry of thread `t`, in the chain `xs` of its bucket. */
  ghost predicate EntryIn(w: World, t: nat, xs: seq<nat>, e: nat)
  {
    |w.table| > 0 && Chain(w, Hash(t, |w.table|), xs) && e in xs && w.nodes[e].thread == t
  }

  ghost predicate HasEntry(w: World, t: nat) { exists xs, e :: EntryIn(w, t, xs, e) }

  /** What TSRM_SAFE_RETURN_RSRC returns: the array for id 0, else a slot. */
  datatype Fetched = Array(e: nat) | Slot(data: nat) | OutOfRange | Dangling

  function Fetch(storage: map<nat, seq<nat>>, e: nat, id: nat): Fetched
  {
    if e !in storage then Dangling
    else if id == 0 then Array(e)
    else if id - 1 < |storage[e]| then Slot(storage[e][id - 1])
    else OutOfRange
  }

  /** What the first fetch of a thread answers, when the next entry is `e` and its objects begin at `first`. */
  function FirstAnswer(done: seq<bool>, e: nat, first: nat, id: nat): Fetched
  {
    if id == 0 then Array(e)
    else if id > |done| then OutOfRange
    else if done[id - 1] then Slot(0)
    else Slot(first + id - 1)
  }

  /** The table with a new entry for `t` behind `last`, or at the head of its bucket if that is 0. */
  function Added(w: World, last: nat, t: nat): World
    requires |w.table| > 0 && (last != 0 ==> last in w.nodes)
  {
    var e, h := w.next, Hash(t, |w.table|);
    w.(table := if last == 0 then w.table[h := e] else w.table,
       nodes := (if last == 0 then w.nodes else w.nodes[last := w.nodes[last].(next := e)])[e := Node(t, 0)],
       storage := w.storage[e := NewSlots(w.done, w.first)],
       next := e + 1, first := w.first + |w.done|)
  }

  /** `w'` is `w` with a new entry for `t` behind the chain `xs` of its bucket. */
  ghost predicate Extended(w: World, w': World, t: nat, xs: seq<nat>)
  {
    var last := if xs == [] then 0 else xs[|xs| - 1];
    |w.table| > 0 && (last != 0 ==> last in w.nodes) && w' == Added(w, last, t)
  }

  lemma FirstFetched(w: World, w': World, t: nat, xs: seq<nat>, id: nat)
    requires Extended(w, w', t, xs)
    ensures Fetch(w'.storage, w.next, id) == FirstAnswer(w.done, w.next, w.first, id)
  {
    hide Hash;
  }

  lemma {:induction false} PathUnique(nodes: Nodes, p: nat, xs: seq<nat>, ys: seq<nat>)
    requires Path(nodes, p, xs, 0) && Path(nodes, p, ys, 0)
    ensures xs == ys
    decreases |xs|
  {
    if xs != [] && ys != [] { PathUnique(nodes, nodes[p].next, xs[1..], ys[1..]); }
  }

  lemma NoOther(w: World, t: nat, xs: seq<nat>)
    requires |w.table| > 0 && Chain(w, Hash(t, |w.table|), xs) && forall x :: x in xs ==> w.nodes[x].thread != t
    ensures !HasEntry(w, t)
  {
    if HasEntry(w, t) {
      var ys, e :| EntryIn(w, t, ys, e);
      PathUnique(w.nodes, w.table[Hash(t, |w.table|)], xs, ys);
      assert false;
    }
  }

  /** A chain through nodes that keep their place and link stays a chain. */
  lemma ChainFrame(w: World, w': World, i: nat, xs: seq<nat>)
    requires Chain(w, i, xs) && |w'.table| == |w.table| && w'.table[i] == w.table[i] && w'.next >= w.next
    requires forall x :: x in xs ==> x in w'.nodes && w'.nodes[x] == w.nodes[x] && x in w'.storage
    ensures Chain(w', i, xs)
  {
    hide Distinct, Hash;
    PathFrame(w.nodes, w'.nodes, w.table[i], xs, 0);
  }

  /** The new entry ends its own chain, and the other chains do not see it. */
  lemma AddedChain(w: World, last: nat, t: nat, xs: seq<nat>)
    requires Linked(w) && Chain(w, Hash(t, |w.table|), xs) && last == if xs == [] then 0 else xs[|xs| - 1]
    requires last != 0 ==> last in w.nodes
    ensures var w' := Added(w, last, t);
            Linked(w') && Chain(w', Hash(t, |w.table|), xs + [w.next]) && EntryIn(w', t, xs + [w.next], w.next)
  {
    hide Linked, Distinct, Hash, NewSlots, HasChain;
    var w', h, e := Added(w, last, t), Hash(t, |w.table|), w.next;
    assert |w.table| > 0 && w.next > 0 && w.first > 0 by { LinkedParts(w); }
    AddedPath(w, last, t, xs);
    assert Distinct(xs + [e]) by { BackDistinct(xs, e); }
    forall x | x in xs + [e]
      ensures x in w'.nodes && x in w'.storage && 0 < x < w'.next && Hash(w'.nodes[x].thread, |w'.table|) == h
    {
      if x != e { assert x in xs; }
    }
    assert Chain(w', h, xs + [e]);
    assert (xs + [e])[|xs|] == e;
    forall i: nat | i < |w'.table| ensures HasChain(w', i) {
      if i == h { IsChain(w', i, xs + [e]); }
      else { var ys := TheChain(w, i); AddedOther(w, last, t, xs, i, ys); IsChain(w', i, ys); }
    }
    LinkedFrom(w');
  }

  lemma IsChain(w: World, i: nat, xs: seq<nat>) requires Chain(w, i, xs) ensures HasChain(w, i) { }

  lemma LinkedParts(w: World)
    requires Linked(w)
    ensures |w.table| > 0 && w.next > 0 && w.first > 0 && forall i: nat :: i < |w.table| ==> HasChain(w, i)
  {
  }

  lemma LinkedFrom(w: World)
    requires |w.table| > 0 && w.next > 0 && w.first > 0 && forall i: nat :: i < |w.table| ==> HasChain(w, i)
    ensures Linked(w)
  {
  }

  lemma AddedPath(w: World, last: nat, t: nat, xs: seq<nat>)
    requires |w.table| > 0 && w.next > 0 && Chain(w, Hash(t, |w.table|), xs)
    requires last == if xs == [] then 0 else xs[|xs| - 1]
    requires last != 0 ==> last in w.nodes
    ensures var w' := Added(w, last, t); Path(w'.nodes, w'.table[Hash(t, |w.table|)], xs + [w.next], 0)
  {
    hide Hash, NewSlots;
    var w', h, e := Added(w, last, t), Hash(t, |w.table|), w.next;
    OnePath(w'.nodes, e);
    if xs == [] {
      assert xs + [e] == [e];
    } else {
      assert last in xs;
      LastLink(w.nodes, w'.nodes, w.table[h], xs, e);
      PathJoin(w'.nodes, w.table[h], xs, e, [e], 0);
    }
  }

  lemma {:induction false} LastLink(nodes: Nodes, nodes': Nodes, p: nat, xs: seq<nat>, e: nat)
    requires Path(nodes, p, xs, 0) && xs != [] && Distinct(xs) && e !in xs
    requires forall x :: x in xs && x != xs[|xs| - 1] ==> x in nodes && x in nodes' && nodes'[x] == nodes[x]
    requires xs[|xs| - 1] in nodes' && nodes'[xs[|xs| - 1]].next == e
    ensures Path(nodes', p, xs, e)
    decreases |xs|
  {
    assert xs[0] in xs;
    if |xs| == 1 {
      assert xs[1..] == [];
    } else {
      var r := xs[1..];
      assert r[|r| - 1] == xs[|xs| - 1] && xs[0] != xs[|xs| - 1];
      forall x | x in r ensures x in xs { }
      LastLink(nodes, nodes', nodes[p].next, r, e);
    }
  }

  lemma AddedOther(w: World, last: nat, t: nat, xs: seq<nat>, i: nat, ys: seq<nat>)
    requires |w.table| > 0 && w.next > 0 && Chain(w, i, ys) && i != Hash(t, |w.table|)
    requires (last != 0 ==> last in w.nodes)
    requires Chain(w, Hash(t, |w.table|), xs) && last == if xs == [] then 0 else xs[|xs| - 1]
    ensures Chain(Added(w, last, t), i, ys)
  {
    hide Path, Distinct, Hash, NewSlots;
    var w' := Added(w, last, t);
    if xs != [] { assert last in xs; }
    forall y | y in ys
      ensures y in w'.nodes && w'.nodes[y] == w.nodes[y] && y in w'.storage
    {
      assert y != w.next && y != last;
    }
    ChainFrame(w, w', i, ys);
  }

  /** `w'` is `w` with a new entry for `t` at the end of the chain `xs`, every other chain as before. */
  ghost predicate NewEntry(w: World, w': World, t: nat, xs: seq<nat>)
  {
    && EntryIn(w', t, xs + [w.next], w.next) && |w'.table| == |w.table|
    && (forall x :: x in xs && x in w.nodes ==> x in w'.nodes && w'.nodes[x].thread == w.nodes[x].thread)
    && forall i: nat, ys :: i != Hash(t, |w.table|) && Chain(w, i, ys) ==> Chain(w', i, ys)
  }

  lemma AddedNew(w: World, last: nat, t: nat, xs: seq<nat>)
    requires |w.table| > 0 && w.next > 0 && (last != 0 ==> last in w.nodes)
    requires Chain(w, Hash(t, |w.table|), xs) && last == if xs == [] then 0 else xs[|xs| - 1]
    requires EntryIn(Added(w, last, t), t, xs + [w.next], w.next)
    ensures NewEntry(w, Added(w, last, t), t, xs)
  {
    hide Path, Distinct, Hash, NewSlots;
    var w' := Added(w, last, t);
    forall i: nat, ys | i != Hash(t, |w.table|) && Chain(w, i, ys)
      ensures Chain(w', i, ys)
    {
      AddedOther(w, last, t, xs, i, ys);
    }
  }

  lemma LastNode(w: World, i: nat, xs: seq<nat>)
    requires Chain(w, i, xs)
    ensures xs != [] ==> xs[|xs| - 1] in w.nodes
  {
    hide Path, Distinct;
    if xs != [] { assert xs[|xs| - 1] in xs; }
  }

  /** The search after an allocation finds the new entry. */
  lemma OnlyEntry(w: World, w': World, t: nat, xs: seq<nat>, ys: seq<nat>, e: nat)
    requires NewEntry(w, w', t, xs) && EntryIn(w', t, ys, e)
    requires forall x :: x in xs ==> x in w.nodes && w.nodes[x].thread != t
    ensures ys == xs + [w.next] && e == w.next
  {
    hide Hash, Distinct;
    PathUnique(w'.nodes, w'.table[Hash(t, |w'.table|)], xs + [w.next], ys);
    assert e in xs + [w.next];
    if e in xs { assert false; }
  }

  class Manager {
    var w: World
    var tls: nat                // the entry in the thread-local storage of the calling thread, or 0
    var locks: int              // locks minus unlocks of the calling thread
    var others: seq<World>      // what other threads will have made of the table at the next locks

    ghost predicate Valid()
      reads this
    {
      Linked(w) && forall k :: 0 <= k < |others| ==> Linked(others[k])
    }

    /** The mutex is not recursive: locking it twice would wait for ever. */
    method Lock()
      requires Valid() && locks == 0
      modifies this
      ensures Valid() && locks == 1 && tls == old(tls)
      ensures if old(others) == [] then w == old(w) && others == [] else w == old(others)[0] && others == old(others)[1..]
    {
      locks := locks + 1;
      if others != [] {
        w := others[0];
        others := others[1..];
      }
    }

    method Unlock()
      requires locks == 1
      modifies this`locks
      ensures locks == 0
    {
      locks := locks - 1;
    }

    /** allocate_new_resource: it is entered with the mutex and left without. */
    method AllocateNew(last: nat, t: nat, ghost xs: seq<nat>)
      requires Valid() && locks == 1 && Chain(w, Hash(t, |w.table|), xs) && last == if xs == [] then 0 else xs[|xs| - 1]
      modifies this`w, this`tls, this`locks
      ensures Valid() && locks == 0 && tls == old(w.next) && NewEntry(old(w), w, t, xs)
      ensures |old(w.table)| > 0 && (last != 0 ==> last in old(w.nodes)) && w == Added(old(w), last, t)
    {
      hide Chain, Added, Linked, Hash, NewEntry;
      assert |w.table| > 0 && w.next > 0 by { LinkedParts(w); }
      assert last != 0 ==> last in w.nodes by { LastNode(w, Hash(t, |w.table|), xs); }
      AddedChain(w, last, t, xs);
      AddedNew(w, last, t, xs);
      var e := w.next;
      w := Added(w, last, t);
      tls := e;
      Unlock();
    }

    /** The two places where an entry is missing: allocate it behind `last`, which unlocks, and start again. */
    method AddAndRetry(last: nat, id: nat, t: nat, ghost was: seq<nat>)
      returns (r: Fetched, ghost e: nat, ghost xs: seq<nat>, ghost depth: nat)
      requires Valid() && locks == 1 && |w.table| > 0 && Chain(w, Hash(t, |w.table|), was) && !HasEntry(w, t)
      requires last == if was == [] then 0 else was[|was| - 1]
      requires forall x :: x in was ==> x in w.nodes && w.nodes[x].thread != t
      modifies this
      ensures Valid() && locks == 0 && |others| <= |old(others)|
      ensures EntryIn(w, t, xs, e) && r == Fetch(w.storage, e, id) && r != Dangling
      ensures old(others) == [] ==> others == [] && depth == 1 && e == tls == old(w.next) && xs == was + [e]
      ensures old(others) == [] ==> Extended(old(w), w, t, was)
      ensures 0 < depth <= |old(others)| + 1
      decreases |others|, 2
    {
      hide Linked, HasEntry, EntryIn, Hash, Chain, NewEntry, Fetch, Path;
      AllocateNew(last, t, was);
      NewHas(old(w), w, t, was);
      r, e, xs, depth := ResourceEx(id, false, t);
      if old(others) == [] { OnlyEntry(old(w), w, t, was, xs, e); }
      depth := depth + 1;
    }

    /** ts_resource_ex, for the calling thread (`own`) by its local pointer if it has one, else by a search
        of the table. Whatever the other threads do in between, it returns without the mutex, and has
        read the entry of the thread in the table as it was at the last lock. If they do nothing, it
        adds an entry exactly if there is none, and calls itself at most once; a new entry answers id 0 with
        its array and every other id with NULL or the object made for it. */
    method ResourceEx(id: nat, own: bool, t: nat) returns (r: Fetched, ghost e: nat, ghost xs: seq<nat>, ghost depth: nat)
      requires Valid() && locks == 0
      modifies this
      ensures Valid() && locks == 0 && |others| <= |old(others)|
      ensures own && old(tls) != 0 ==>
                w == old(w) && tls == old(tls) && others == old(others) && depth == 0 && r == Fetch(w.storage, tls, id)
      ensures !(own && old(tls) != 0) ==> EntryIn(w, t, xs, e) && r == Fetch(w.storage, e, id) && r != Dangling
      ensures !(own && old(tls) != 0) && old(others) == [] && HasEntry(old(w), t) ==>
                w == old(w) && tls == old(tls) && others == [] && depth == 0
      ensures !(own && old(tls) != 0) && old(others) == [] && !HasEntry(old(w), t) ==>
                && others == [] && depth == 1 && e == tls == old(w.next) && |old(w.table)| > 0 && xs != []
                && xs == xs[..|xs| - 1] + [e] && Chain(old(w), Hash(t, |old(w.table)|), xs[..|xs| - 1])
                && Extended(old(w), w, t, xs[..|xs| - 1]) && r == FirstAnswer(old(w.done), e, old(w.first), id)
      ensures depth <= |old(others)| + (if HasEntry(old(w), t) then 0 else 1)
      decreases |others|, if HasEntry(w, t) then 1 else 3
    {
      hide Linked, HasEntry, Hash, Chain, EntryIn, Path, Extended, FirstAnswer;
      e, xs, depth := tls, [], 0;
      if own && tls != 0 {
        r := Fetch(w.storage, tls, id);
        return;
      }
      Lock();
      assert |w.table| > 0 by { LinkedParts(w); }
      var h := Hash(t, |w.table|);
      xs := TheChain(w, h);
      var p := w.table[h];
      ChainHead(w, h, xs);
      if p == 0 {
        NoOther(w, t, xs);
        ghost var was := xs;
        r, e, xs, depth := AddAndRetry(0, id, t, xs);
        if old(others) == [] { FirstFetched(old(w), w, t, was, id); }
        return;
      }
      ghost var k: nat := 0;
      label locked:
      while w.nodes[p].thread != t
        invariant w == old@locked(w) && locks == 1 && tls == old(tls) && others == old@locked(others) && Valid()
        invariant k < |xs| && p == xs[k] && p in w.nodes && p != 0 && Path(w.nodes, p, xs[k..], 0)
        invariant forall i :: 0 <= i < k ==> xs[i] in w.nodes && w.nodes[xs[i]].thread != t
        decreases |xs| - k
      {
        PathEnds(w.nodes, p, xs, k);
        var next := w.nodes[p].next;
        PathEnds(w.nodes, next, xs, k + 1);
        if next != 0 {
          p := next;
          k := k + 1;
        } else {
          EveryEntry(w.nodes, xs, k, t);
          NoOther(w, t, xs);
          ghost var was := xs;
          r, e, xs, depth := AddAndRetry(p, id, t, xs);
          if old(others) == [] { FirstFetched(old(w), w, t, was, id); }
          return;
        }
      }
      e := p;
      ChainHas(w, t, xs, e);
      Unlock();
      r := Fetch(w.storage, p, id);
    }
  }

  lemma TheChain(w: World, i: nat) returns (xs: seq<nat>)
    requires Linked(w) && i < |w.table|
    ensures Chain(w, i, xs)
  {
    assert HasChain(w, i);
    xs :| Chain(w, i, xs);
  }

  lemma EveryEntry(nodes: Nodes, xs: seq<nat>, k: nat, t: nat)
    requires |xs| == k + 1 && forall i :: 0 <= i <= k ==> xs[i] in nodes && nodes[xs[i]].thread != t
    ensures forall x :: x in xs ==> x in nodes && nodes[x].thread != t
  {
  }

  lemma ChainHead(w: World, h: nat, xs: seq<nat>)
    requires Chain(w, h, xs)
    ensures w.table[h] == 0 <==> xs == []
    ensures xs != [] ==> w.table[h] == xs[0] && xs[0] in w.nodes && xs[0..] == xs && Path(w.nodes, xs[0], xs, 0)
  {
    hide Distinct;
    if xs != [] { assert xs[0] in xs; }
  }

  lemma NewHas(w: World, w': World, t: nat, xs: seq<nat>)
    requires NewEntry(w, w', t, xs)
    ensures HasEntry(w', t)
  {
  }

  lemma ChainHas(w: World, t: nat, xs: seq<nat>, e: nat)
    requires |w.table| > 0 && Chain(w, Hash(t, |w.table|), xs) && e in xs && e in w.nodes && w.nodes[e].thread == t
    ensures EntryIn(w, t, xs, e) && HasEntry(w, t) && e in w.storage
  {
    assert EntryIn(w, t, xs, e);
  }
}
