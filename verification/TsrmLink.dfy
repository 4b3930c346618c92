/** The linked entries against the state machine: the loops over the chains do what the steps say. */
module TsrmLink {
  import opened Tsrm
  import opened TsrmChains
  import opened TsrmResource

  /** The bucket heads and linked entries hold the chains of `s`. */
  ghost predicate Shows(table: seq<nat>, nodes: Nodes, s: State)
  {
    && |table| == |s.chains| && (forall i: nat :: i < |table| ==> Path(nodes, table[i], s.chains[i], 0))
    && (forall e :: e in nodes <==> e in s.entries)
    && (forall e :: e in nodes && e in s.entries ==> nodes[e].thread == s.entries[e].thread)
  }

  /** Chains of different buckets have no entry in common. */
  lemma Apart(s: State, i: nat, j: nat, e: nat)
    requires Table(s) && i < |s.chains| && j < |s.chains| && e in s.chains[i] && e in s.chains[j]
    ensures i == j
  {
    hide Hash, Distinct;
    assert Hash(s.entries[e].thread, |s.chains|) == i;
    assert Hash(s.entries[e].thread, |s.chains|) == j;
  }

  /** Another bucket does not notice what happens to the entries of bucket `h`. */
  lemma OtherPath(nodes: Nodes, nodes': Nodes, s: State, h: nat, i: nat, p: nat)
    requires Table(s) && h < |s.chains| && i < |s.chains| && i != h && Path(nodes, p, s.chains[i], 0)
    requires forall x :: x in nodes && x !in s.chains[h] ==> x in nodes' && nodes'[x] == nodes[x]
    ensures Path(nodes', p, s.chains[i], 0)
  {
    hide Table, Path;
    forall x | x in s.chains[i] && x in nodes ensures x in nodes' && nodes'[x] == nodes[x] {
      if x in s.chains[h] { Apart(s, i, h, x); assert false; }
    }
    PathFrame(nodes, nodes', p, s.chains[i], 0);
  }

  lemma OneEntryOf(s: State, t: nat, e: nat, f: nat)
    requires Table(s) && EntryOf(s, t, e) && EntryOf(s, t, f)
    ensures e == f
  {
    hide Hash, Distinct;
  }

  // ---------- ts_free_thread ----------

  /** The loop of ts_free_thread is the step. */
  method FreeThreadStep(b: Bucket, table: seq<nat>, t: nat, ghost s: State) returns (e: nat)
    requires Table(s) && Enabled(s, Step.FreeThread(t)) && Shows(table, b.nodes, s)
    requires b.head == table[Hash(t, |s.chains|)]
    modifies b
    ensures Shows(table[Hash(t, |s.chains|) := b.head], b.nodes, Apply(s, Step.FreeThread(t)))
  {
    hide Path, Hash, Table, Without;
    ghost var h, nodes := Hash(t, |s.chains|), b.nodes;
    ghost var xs := s.chains[h];
    assert Distinct(xs) by { DistinctChain(s, h); }
    hide Distinct;
    e := b.FreeThread(t, xs);
    if e == 0 {
      forall x ensures !EntryOf(s, t, x) { }
      assert table[h := b.head] == table;
    } else {
      assert EntryOf(s, t, e) by { ChainEntries(s, h); }
      forall x | EntryOf(s, t, x) ensures x == e { OneEntryOf(s, t, x, e); }
      Freed(table, nodes, b.nodes, b.head, s, t, e);
    }
  }

  lemma DistinctChain(s: State, i: nat)
    requires Table(s) && i < |s.chains|
    ensures Distinct(s.chains[i])
  {
    hide Hash, Distinct;
  }

  lemma ChainEntries(s: State, i: nat)
    requires Table(s) && i < |s.chains|
    ensures forall e :: e in s.chains[i] ==> e in s.entries && Hash(s.entries[e].thread, |s.chains|) == i
  {
    hide Hash, Distinct;
  }

  lemma Freed(table: seq<nat>, nodes: Nodes, nodes': Nodes, head': nat, s: State, t: nat, e: nat)
    requires Table(s) && Enabled(s, Step.FreeThread(t)) && Shows(table, nodes, s) && EntryOf(s, t, e)
    requires forall x :: EntryOf(s, t, x) ==> x == e
    requires Path(nodes', head', Without(s.chains[Hash(t, |s.chains|)], e), 0)
    requires forall x :: x in nodes' <==> x in nodes && x != e
    requires forall x :: x in nodes' && x in nodes ==>
               nodes'[x].thread == nodes[x].thread && (x !in s.chains[Hash(t, |s.chains|)] ==> nodes'[x] == nodes[x])
    ensures Shows(table[Hash(t, |s.chains|) := head'], nodes', Apply(s, Step.FreeThread(t)))
  {
    hide Path, Hash, Table, Without, Objects;
    var h, s' := Hash(t, |s.chains|), Apply(s, Step.FreeThread(t));
    assert s'.chains == s.chains[h := Without(s.chains[h], e)] && s'.entries == s.entries - {e};
    forall i: nat | i < |table| ensures Path(nodes', table[h := head'][i], s'.chains[i], 0) {
      if i != h { OtherPath(nodes, nodes', s, h, i, table[i]); }
    }
  }

  // ---------- ts_free_worker_threads ----------

  /** The entries of thread `t`, in order. */
  ghost function OwnOf(entries: map<nat, Entry>, c: seq<nat>, t: nat): seq<nat>
  {
    if c == [] then []
    else (if c[0] in entries && entries[c[0]].thread == t then [c[0]] else []) + OwnOf(entries, c[1..], t)
  }

  lemma {:induction false} OwnIsOfThread(entries: map<nat, Entry>, nodes: Nodes, c: seq<nat>, t: nat)
    requires forall e :: e in c ==> e in entries && e in nodes && nodes[e].thread == entries[e].thread
    ensures OwnOf(entries, c, t) == OfThread(nodes, c, t)
  {
    if c != [] {
      assert c[0] in c;
      OwnIsOfThread(entries, nodes, c[1..], t);
    }
  }

  /** Taking a foreign entry out leaves the own ones. */
  lemma {:induction false} OwnWithout(entries: map<nat, Entry>, c: seq<nat>, t: nat, e: nat)
    requires e in entries && entries[e].thread != t
    ensures OwnOf(entries - {e}, Without(c, e), t) == OwnOf(entries, c, t)
    decreases |c|
  {
    if c != [] {
      OwnCons(entries, c, t);
      if c[0] == e {
        OwnFewer(entries, c[1..], t, e);
      } else {
        var d := [c[0]] + Without(c[1..], e);
        assert d[1..] == Without(c[1..], e);
        OwnCons(entries - {e}, d, t);
        OwnWithout(entries, c[1..], t, e);
        hide OwnOf;
        assert Without(c, e) == d;
      }
    }
  }

  lemma OwnCons(entries: map<nat, Entry>, c: seq<nat>, t: nat)
    requires c != []
    ensures OwnOf(entries, c, t) == (if c[0] in entries && entries[c[0]].thread == t then [c[0]] else []) + OwnOf(entries, c[1..], t)
  {
  }

  lemma {:induction false} OwnFewer(entries: map<nat, Entry>, c: seq<nat>, t: nat, e: nat)
    requires e in entries && entries[e].thread != t
    ensures OwnOf(entries - {e}, c, t) == OwnOf(entries, c, t)
  {
    if c != [] { OwnFewer(entries, c[1..], t, e); }
  }

  lemma {:induction false} AllOwn(entries: map<nat, Entry>, c: seq<nat>, t: nat)
    requires forall e :: e in c ==> e in entries && entries[e].thread == t
    ensures OwnOf(entries, c, t) == c
  {
    if c != [] {
      assert c[0] in c;
      AllOwn(entries, c[1..], t);
    }
  }

  /** The thread is inside, with nothing begun. */
  ghost predicate Sweeping(s: State, t: nat)
  {
    Inv(s) && Holding(s, t) && s.work == Nothing && t !in s.retry
  }

  /** What the sweep steps of one critical section have left. */
  ghost predicate SweptTo(s: State, s': State, t: nat)
    requires |s.chains| > 0
  {
    var h := Hash(t, |s.chains|);
    && s'.chains == s.chains[h := OwnOf(s.entries, s.chains[h], t)]
    && (forall e :: e in s'.entries <==> e in s.entries && (e in s.chains[h] ==> s.entries[e].thread == t))
    && (forall e :: e in s'.entries && e in s.entries ==> s'.entries[e] == s.entries[e])
  }

  /** Sweep steps, taken one by one until no foreign entry is left in the bucket, leave exactly the own
      ones, in order. */
  lemma {:induction false} SweepAll(s: State, t: nat) returns (steps: seq<Step>, s': State)
    requires Sweeping(s, t)
    ensures Run(s, steps, s') && (forall k :: 0 <= k < |steps| ==> steps[k].Sweep? && steps[k].t == t)
    ensures |s.chains| > 0 && SweptTo(s, s', t) && Sweeping(s', t)
    decreases |s.entries|
  {
    hide Inv, Run, SweptTo;
    assert |s.chains| > 0 by { SomeChain(s); }
    var c := s.chains[Hash(t, |s.chains|)];
    if e :| e in c && e in s.entries && s.entries[e].thread != t {
      StepKeepsInv(s, Step.Sweep(t, e));
      var s1 := Apply(s, Step.Sweep(t, e));
      FewerEntries(s.entries, e);
      var more;
      more, s' := SweepAll(s1, t);
      RunFirst(s, Step.Sweep(t, e), more, s');
      steps := [Step.Sweep(t, e)] + more;
      SweptMore(s, s1, s', t, e);
    } else {
      steps, s' := [], s;
      RunNone(s);
      SweptNone(s, t);
    }
  }

  lemma SomeChain(s: State)
    requires Inv(s)
    ensures |s.chains| > 0
  {
    hide AllSlots, Tls, Mutex, Once;
  }

  lemma FewerEntries(entries: map<nat, Entry>, e: nat)
    requires e in entries
    ensures |entries - {e}| < |entries|
  {
    assert entries.Keys == (entries - {e}).Keys + {e};
    assert |entries.Keys| == |entries| && |(entries - {e}).Keys| == |entries - {e}|;
  }

  lemma RunFirst(s: State, step: Step, more: seq<Step>, s': State)
    requires |s.chains| > 0 && Enabled(s, step) && Run(Apply(s, step), more, s')
    ensures Run(s, [step] + more, s')
  {
    hide Enabled, Apply;
    assert ([step] + more)[1..] == more;
  }

  lemma SweptNone(s: State, t: nat)
    requires Sweeping(s, t) && |s.chains| > 0
    requires forall e :: e in s.chains[Hash(t, |s.chains|)] && e in s.entries ==> s.entries[e].thread == t
    ensures SweptTo(s, s, t)
  {
    hide AllSlots, Tls, Mutex, Once, Hash, Distinct;
    var h := Hash(t, |s.chains|);
    AllOwn(s.entries, s.chains[h], t);
    assert s.chains[h := s.chains[h]] == s.chains;
  }

  lemma SweptMore(s: State, s1: State, s': State, t: nat, e: nat)
    requires Sweeping(s, t) && |s.chains| > 0 && Enabled(s, Step.Sweep(t, e)) && s1 == Apply(s, Step.Sweep(t, e))
    requires SweptTo(s1, s', t)
    ensures SweptTo(s, s', t)
  {
    hide AllSlots, Tls, Mutex, Once, Hash, Without, Objects, OwnOf;
    var h := Hash(t, |s.chains|);
    var c := s.chains[h];
    assert s1.chains == s.chains[h := Without(c, e)] && s1.entries == s.entries - {e};
    OwnWithout(s.entries, c, t, e);
    assert s'.chains == s.chains[h := OwnOf(s.entries, c, t)];
    WithoutElems(c, e);
    hide Inv;
    forall x ensures x in s'.entries <==> x in s.entries && (x in c ==> s.entries[x].thread == t) { }
  }

  /** The loop of ts_free_worker_threads is a run of sweep steps. */
  method SweepSteps(b: Bucket, table: seq<nat>, t: nat, ghost s: State) returns (ghost steps: seq<Step>, ghost s': State)
    requires Sweeping(s, t) && |s.chains| > 0 && Shows(table, b.nodes, s) && b.head == table[Hash(t, |s.chains|)]
    modifies b
    ensures Run(s, steps, s') && (forall k :: 0 <= k < |steps| ==> steps[k].Sweep? && steps[k].t == t)
    ensures Shows(table[Hash(t, |s.chains|) := b.head], b.nodes, s')
  {
    hide Path, Hash, Run, OfThread, SweptTo, Distinct, Inv;
    ghost var h, nodes := Hash(t, |s.chains|), b.nodes;
    ghost var xs := s.chains[h];
    assert Table(s) by { TableOf(s); }
    DistinctChain(s, h);
    b.Sweep(t, xs);
    steps, s' := SweepAll(s, t);
    SweptShows(table, nodes, b.nodes, b.head, s, s', t);
  }

  lemma TableOf(s: State)
    requires Inv(s)
    ensures Table(s)
  {
  }

  lemma SweptShows(table: seq<nat>, nodes: Nodes, nodes': Nodes, head': nat, s: State, s': State, t: nat)
    requires Table(s) && Shows(table, nodes, s) && SweptTo(s, s', t)
    requires Path(nodes', head', OfThread(nodes, s.chains[Hash(t, |s.chains|)], t), 0)
    requires forall x :: x in nodes' <==> x in nodes && (x in s.chains[Hash(t, |s.chains|)] ==> nodes[x].thread == t)
    requires forall x :: x in nodes' && x in nodes ==>
               nodes'[x].thread == nodes[x].thread && (x !in s.chains[Hash(t, |s.chains|)] ==> nodes'[x] == nodes[x])
    ensures Shows(table[Hash(t, |s.chains|) := head'], nodes', s')
  {
    hide Path, Hash, Table, OfThread, OwnOf;
    var h := Hash(t, |s.chains|);
    ChainEntries(s, h);
    OwnIsOfThread(s.entries, nodes, s.chains[h], t);
    forall i: nat | i < |table| ensures Path(nodes', table[h := head'][i], s'.chains[i], 0) {
      if i != h { OtherPath(nodes, nodes', s, h, i, table[i]); }
    }
  }

  // ---------- allocate_new_resource ----------

  /** What the mutex protects is the table of `s`. */
  ghost predicate Realises(w: World, s: State)
  {
    && Shows(w.table, w.nodes, s) && w.done == s.done && w.next == s.nextEntry && w.first == s.nextObject
    && forall e :: e in s.entries ==> e in w.storage && w.storage[e] == s.entries[e].slots
  }

  lemma RealisesChains(w: World, s: State, i: nat)
    requires Realises(w, s) && Table(s) && i < |s.chains| && w.next > 0
    ensures Chain(w, i, s.chains[i])
  {
    hide Hash, Distinct, Path;
    PathNodes(w.nodes, w.table[i], s.chains[i], 0);
    forall x | x in s.chains[i]
      ensures x in w.nodes && x in w.storage && 0 < x < w.next && Hash(w.nodes[x].thread, |w.table|) == i
    {
    }
  }

  /** The search of the chain finds an entry exactly if the state machine has one. */
  lemma SearchAgrees(w: World, s: State, t: nat)
    requires Realises(w, s) && Table(s) && w.next > 0
    ensures HasEntry(w, t) <==> exists e :: EntryOf(s, t, e)
  {
    hide Path, Hash, Distinct;
    var h := Hash(t, |s.chains|);
    RealisesChains(w, s, h);
    if HasEntry(w, t) {
      var xs, e :| EntryIn(w, t, xs, e);
      PathUnique(w.nodes, w.table[h], xs, s.chains[h]);
      assert EntryOf(s, t, e);
    }
    if e :| EntryOf(s, t, e) { assert EntryIn(w, t, s.chains[h], e); }
  }

  /** The allocation of a new entry is the step. */
  lemma AllocateRealises(w: World, s: State, t: nat, last: nat)
    requires Realises(w, s) && Inv(s) && Enabled(s, Step.Allocate(t)) && w.next > 0
    requires var c := s.chains[Hash(t, |s.chains|)];
             last == (if c == [] then 0 else c[|c| - 1]) && (last != 0 ==> last in w.nodes)
    ensures Realises(Added(w, last, t), Apply(s, Step.Allocate(t)))
  {
    assert Table(s) by { TableOf(s); }
    assert |s.chains| > 0;
    hide Path, Hash, Inv, Table, NewSlots, Enabled, Apply, Added, Realises;
    SameSize(w, s);
    AllocateEffect(s, t);
    AddedEffect(w, s, last, t);
    forall i: nat | i < |w.table|
      ensures Path(Added(w, last, t).nodes, Added(w, last, t).table[i], Apply(s, Step.Allocate(t)).chains[i], 0)
    {
      AllocatePath(w, s, t, last, i);
    }
    Combined(w, Added(w, last, t), s, Apply(s, Step.Allocate(t)), t);
  }

  lemma Combined(w: World, w': World, s: State, s': State, t: nat)
    requires Realises(w, s) && |w'.table| == |w.table| && |s'.chains| == |s.chains| && w'.done == w.done
    requires s'.done == s.done
    requires w'.next == w.next + 1 && s'.nextEntry == s.nextEntry + 1
    requires w'.first == w.first + |w.done| && s'.nextObject == s.nextObject + |s.done|
    requires s'.entries == s.entries[s.nextEntry := Entry(t, NewSlots(s.done, s.nextObject))]
    requires forall x :: x in w'.nodes <==> x in w.nodes || x == w.next
    requires forall x :: x in w'.nodes ==> w'.nodes[x].thread == if x == w.next then t else w.nodes[x].thread
    requires forall x :: x in s.entries ==> x != w.next && x in w'.storage && w'.storage[x] == w.storage[x]
    requires w.next in w'.storage && w'.storage[w.next] == NewSlots(w.done, w.first)
    requires forall i: nat :: i < |w.table| ==> Path(w'.nodes, w'.table[i], s'.chains[i], 0)
    ensures Realises(w', s')
  {
    hide Path, NewSlots;
  }

  lemma AllocateEffect(s: State, t: nat)
    requires |s.chains| > 0 && Enabled(s, Step.Allocate(t))
    ensures var s', h := Apply(s, Step.Allocate(t)), Hash(t, |s.chains|);
            && s'.chains == s.chains[h := s.chains[h] + [s.nextEntry]] && s'.done == s.done
            && s'.entries == s.entries[s.nextEntry := Entry(t, NewSlots(s.done, s.nextObject))]
            && s'.nextEntry == s.nextEntry + 1 && s'.nextObject == s.nextObject + |s.done|
  {
    hide Hash, NewSlots, Objects, EntryOf;
  }

  lemma AddedEffect(w: World, s: State, last: nat, t: nat)
    requires Realises(w, s) && Table(s) && |w.table| > 0 && (last != 0 ==> last in w.nodes)
    ensures var w', e := Added(w, last, t), w.next;
            && |w'.table| == |w.table| && w'.done == w.done && w'.next == w.next + 1 && w'.first == w.first + |w.done|
            && (forall x :: x in w'.nodes <==> x in w.nodes || x == e)
            && (forall x :: x in w'.nodes ==> w'.nodes[x].thread == if x == e then t else w.nodes[x].thread)
            && (forall x :: x in s.entries ==> x != e && x in w'.storage && w'.storage[x] == w.storage[x])
            && e in w'.storage && w'.storage[e] == NewSlots(w.done, w.first)
  {
    hide Path, Hash, Distinct, NewSlots;
  }

  lemma AllocatePath(w: World, s: State, t: nat, last: nat, i: nat)
    requires Realises(w, s) && Table(s) && |s.chains| > 0 && w.next > 0 && i < |s.chains|
    requires var c := s.chains[Hash(t, |s.chains|)];
             last == (if c == [] then 0 else c[|c| - 1]) && (last != 0 ==> last in w.nodes)
    ensures var h, w' := Hash(t, |s.chains|), Added(w, last, t);
            Path(w'.nodes, w'.table[i], s.chains[h := s.chains[h] + [w.next]][i], 0)
  {
    hide Path, Hash, NewSlots, Table, Added;
    var h := Hash(t, |s.chains|);
    RealisesChains(w, s, h);
    RealisesChains(w, s, i);
    if i == h { AddedPath(w, last, t, s.chains[h]); } else { AddedOther(w, last, t, s.chains[h], i, s.chains[i]); }
  }

  /** So does the method, on the table of any state of the machine in which the thread finds no entry. */
  method AllocateStep(m: Manager, t: nat, last: nat, ghost s: State)
    requires m.Valid() && m.locks == 1 && Realises(m.w, s) && Inv(s) && Enabled(s, Step.Allocate(t))
    requires var c := s.chains[Hash(t, |s.chains|)]; last == if c == [] then 0 else c[|c| - 1]
    modifies m
    ensures m.Valid() && m.locks == 0 && Realises(m.w, Apply(s, Step.Allocate(t)))
    ensures t in Apply(s, Step.Allocate(t)).tls && Apply(s, Step.Allocate(t)).tls[t] == m.tls
  {
    hide Path, Hash, Distinct, Chain, Added, Linked, NewEntry, AllSlots, Tls, Mutex, Once, Realises;
    assert m.w.next > 0 && |m.w.table| > 0 by { LinkedParts(m.w); }
    assert |m.w.table| == |s.chains| && m.w.next == s.nextEntry by { SameSize(m.w, s); }
    ghost var c, w := s.chains[Hash(t, |s.chains|)], m.w;
    assert Table(s);
    hide Table;
    RealisesChains(w, s, Hash(t, |s.chains|));
    LastNode(w, Hash(t, |s.chains|), c);
    AllocateRealises(w, s, t, last);
    m.AllocateNew(last, t, c);
  }

  // ---------- what a fetch returns ----------

  /** Id 0 returns the array of the entry, and id j + 1 an object exactly if slot j of the entry holds it. */
  lemma FetchSlot(w: World, s: State, t: nat, e: nat, j: nat, o: nat)
    requires Realises(w, s) && Table(s) && EntryOf(s, t, e)
    ensures Fetch(w.storage, e, 0) == Array(e) && (Fetch(w.storage, e, j + 1) == Slot(o) <==> SlotIs(s, e, j, o))
  {
    hide Shows, Hash;
  }

  /** Between critical sections every id has its answer: nothing beyond the last, NULL exactly if it is done,
      else an object that was made and not yet destroyed. */
  lemma FetchAll(w: World, s: State, t: nat, e: nat, j: nat)
    requires Realises(w, s) && Inv(s) && s.work == Nothing && EntryOf(s, t, e)
    ensures Fetch(w.storage, e, j + 1) == OutOfRange <==> j >= |s.done|
    ensures j < |s.done| ==>
              var r := Fetch(w.storage, e, j + 1);
              r.Slot? && (r.data == 0 <==> s.done[j]) && (r.data != 0 ==> r.data in s.made && r.data !in s.gone)
  {
    SlotNullIffDone(s, e, j);
    hide Shows, Hash, Table, AllSlots, Tls, Mutex;
    if j < |s.done| { assert SlotIs(s, e, j, s.entries[e].slots[j]); }
  }

  /** Two different ids, or the ids of two threads, never share an object. */
  lemma FetchApart(w: World, s: State, t: nat, e: nat, j: nat, u: nat, f: nat, k: nat)
    requires Realises(w, s) && Inv(s) && EntryOf(s, t, e) && EntryOf(s, u, f) && (t != u || j != k)
    requires var r := Fetch(w.storage, e, j + 1); r.Slot? && r.data != 0
    ensures Fetch(w.storage, e, j + 1) != Fetch(w.storage, f, k + 1)
  {
    assert Table(s) && Once(s);
    hide Inv, Realises, Fetch, Hash, Distinct, Table;
    var r := Fetch(w.storage, e, j + 1);
    FetchSlot(w, s, t, e, j, r.data);
    FetchSlot(w, s, u, f, k, r.data);
    assert !(e == f && j == k);
  }

  /** ts_resource_ex of a thread that is not disturbed is the steps of the machine: nothing, or lock, add an
      entry, lock again and find it. What it returns is the array of the thread's entry or its slot. */
  method FetchStep(m: Manager, id: nat, t: nat, ghost s: State) returns (r: Fetched, ghost steps: seq<Step>, ghost s': State)
    requires m.Valid() && m.locks == 0 && m.others == [] && Realises(m.w, s) && Inv(s) && Idle(s) && t !in s.retry
    requires t !in s.lost
    requires m.tls == if t in s.tls then s.tls[t] else 0
    modifies m
    ensures m.Valid() && m.locks == 0 && Run(s, steps, s') && Realises(m.w, s') && Inv(s') && Idle(s') && t !in s'.lost
    ensures t in s'.tls && s'.tls[t] == m.tls && EntryOf(s', t, m.tls)
    ensures steps == if t in s.tls then [] else [Step.Lock(t), Step.Allocate(t), Step.Lock(t), Step.Found(t)]
    ensures if id == 0 then r == Array(m.tls) else forall o :: r == Slot(o) <==> SlotIs(s', m.tls, id - 1, o)
    ensures steps != [] ==> r == FirstAnswer(s.done, s.nextEntry, s.nextObject, id)
  {
    hide Inv, Realises, Hash, Chain, Linked, Path, Fetch, FirstAnswer, Run, Extended, HasEntry, EntryIn;
    ghost var w := m.w;
    assert m.w.next > 0 && |m.w.table| > 0 by { LinkedParts(m.w); }
    SameSize(w, s);
    TableOf(s);
    SearchAgrees(w, s, t);
    OwnEntry(s, t);
    if t in s.tls { NotNull(w, s, t, s.tls[t]); }
    ghost var e, xs, depth;
    r, e, xs, depth := m.ResourceEx(id, true, t);
    if t in s.tls {
      steps, s' := [], s;
      RunNone(s);
    } else {
      RunNone(s);
      steps, s' := FirstFetch(s, [], s, t);
      RunInv(s, steps, s');
      FirstRealises(w, m.w, s, s', t, xs[..|xs| - 1]);
    }
    TableOf(s');
    OwnEntry(s', t);
    forall o ensures id > 0 ==> (r == Slot(o) <==> SlotIs(s', m.tls, id - 1, o)) {
      if id > 0 { FetchSlot(m.w, s', t, m.tls, id - 1, o); }
    }
    FetchSlot(m.w, s', t, m.tls, 0, 0);
  }

  lemma FirstRealises(w: World, w': World, s: State, s': State, t: nat, xs: seq<nat>)
    requires Realises(w, s) && Inv(s) && Idle(s) && w.next > 0 && |w.table| == |s.chains|
    requires forall e :: !EntryOf(s, t, e)
    requires Chain(w, Hash(t, |w.table|), xs) && Extended(w, w', t, xs)
    requires s'.entries == s.entries[s.nextEntry := Entry(t, NewSlots(s.done, s.nextObject))] && s'.done == s.done
    requires s'.nextEntry == s.nextEntry + 1 && s'.nextObject == s.nextObject + |s.done|
    requires var h := Hash(t, |s.chains|); s'.chains == s.chains[h := s.chains[h] + [s.nextEntry]]
    ensures Realises(w', s')
  {
    hide Inv, Realises, Hash, Chain, Path, NewSlots, Table, Added, Objects;
    var s1 := Apply(s, Step.Lock(t));
    StepKeepsInv(s, Step.Lock(t));
    assert Realises(w, s1) by { RealisesSame(w, s, s1); }
    forall e ensures !EntryOf(s1, t, e) { assert !EntryOf(s, t, e); }
    TableOf(s);
    RealisesChains(w, s, Hash(t, |s.chains|));
    assert xs == s.chains[Hash(t, |s.chains|)] by { OneChain(w, Hash(t, |w.table|), xs, s.chains[Hash(t, |s.chains|)]); }
    AllocateRealises(w, s1, t, if xs == [] then 0 else xs[|xs| - 1]);
    AllocateEffect(s1, t);
    hide Apply;
    RealisesSame(w', Apply(s1, Step.Allocate(t)), s');
  }

  lemma NotNull(w: World, s: State, t: nat, e: nat)
    requires Realises(w, s) && Table(s) && w.next > 0 && EntryOf(s, t, e)
    ensures e > 0
  {
    hide Realises, Path, Distinct, Table, Hash;
    RealisesChains(w, s, Hash(t, |s.chains|));
  }

  lemma OneChain(w: World, i: nat, xs: seq<nat>, ys: seq<nat>)
    requires Chain(w, i, xs) && Chain(w, i, ys)
    ensures xs == ys
  {
    hide Path, Distinct, Hash;
    PathUnique(w.nodes, w.table[i], xs, ys);
  }

  lemma RealisesSame(w: World, s: State, s': State)
    requires Realises(w, s) && s'.chains == s.chains && s'.entries == s.entries && s'.done == s.done
    requires s'.nextEntry == s.nextEntry && s'.nextObject == s.nextObject
    ensures Realises(w, s')
  {
    hide Path;
  }

  /** A thread has a local pointer exactly if it has an entry, unless that was swept. */
  lemma OwnEntry(s: State, t: nat)
    requires Inv(s) && t !in s.lost
    ensures |s.chains| > 0 && (t in s.tls <==> exists e :: EntryOf(s, t, e)) && (t in s.tls ==> EntryOf(s, t, s.tls[t]))
  {
    hide Once, Mutex, AllSlots, Distinct, Hash;
    if t in s.tls { FastPath(s, t); }
  }

  lemma SameSize(w: World, s: State)
    requires Realises(w, s)
    ensures |w.table| == |s.chains| && w.next == s.nextEntry && w.done == s.done && w.first == s.nextObject
  {
  }

  /** The empty table of tsrm_startup. */
  lemma StartRealised(size: nat)
    requires size > 0
    ensures Realises(World(seq(size, _ => 0), map[], map[], [], 1, 1), Start(size))
  {
  }
}
