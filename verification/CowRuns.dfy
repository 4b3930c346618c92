/** Programs over variables: copy on write cannot be observed. The reference semantics has no counts
    and no sharing of values: a variable names a location, and only references share locations. */
module CowRuns {
  import opened Cow

  datatype Op =
    | New(t: int, v: int)         // a fresh variable
    | Copy(s: int, t: int)        // by value
    | Ref(s: int, t: int)         // by reference
    | Put(s: int, v: int)
    | Drop(s: int)
    | Get(s: int)

  datatype World = World(loc: map<int, nat>, vals: map<nat, int>, next: nat, outs: seq<int>)

  ghost predicate Sane(w: World) { forall s :: s in w.loc ==> w.loc[s] in w.vals && w.loc[s] < w.next }

  predicate Legal(w: World, op: Op)
  {
    match op
    case New(t, _) => t !in w.loc
    case Copy(s, t) => s in w.loc && w.loc[s] in w.vals && t !in w.loc
    case Ref(s, t) => s in w.loc && t !in w.loc
    case Put(s, _) => s in w.loc
    case Drop(s) => s in w.loc
    case Get(s) => s in w.loc && w.loc[s] in w.vals
  }

  function Step(w: World, op: Op): World
    requires Legal(w, op)
  {
    match op
    case New(t, v) => w.(loc := w.loc[t := w.next], vals := w.vals[w.next := v], next := w.next + 1)
    case Copy(s, t) => w.(loc := w.loc[t := w.next], vals := w.vals[w.next := w.vals[w.loc[s]]], next := w.next + 1)
    case Ref(s, t) => w.(loc := w.loc[t := w.loc[s]])
    case Put(s, v) => w.(vals := w.vals[w.loc[s] := v])
    case Drop(s) => w.(loc := w.loc - {s})
    case Get(s) => w.(outs := w.outs + [w.vals[w.loc[s]]])
  }

  ghost function Replay(ops: seq<Op>): World
    decreases |ops|
  {
    if ops == [] then World(map[], map[], 0, [])
    else
      var w := Replay(ops[..|ops| - 1]);
      if Legal(w, ops[|ops| - 1]) then Step(w, ops[|ops| - 1]) else w
  }

  ghost predicate LegalRun(ops: seq<Op>)
  {
    forall i {:trigger Legal(Replay(ops[..i]), ops[i])} :: 0 <= i < |ops| ==> Legal(Replay(ops[..i]), ops[i])
  }

  lemma ReplayStep(ops: seq<Op>, i: int)
    requires 0 <= i < |ops| && LegalRun(ops)
    ensures Legal(Replay(ops[..i]), ops[i]) && Replay(ops[..i + 1]) == Step(Replay(ops[..i]), ops[i])
  {
    assert Legal(Replay(ops[..i]), ops[i]);
    assert ops[..i + 1][..i] == ops[..i];
  }

  /** Variables have the values of their locations, and are aliases exactly if they name the same one. */
  ghost predicate Refines(slots: map<int, int>, zvals: map<int, Zval>, w: World)
  {
    && Sane(w) && (forall s :: s in slots <==> s in w.loc)
    && (forall s :: s in slots ==> slots[s] in zvals && zvals[slots[s]].value == w.vals[w.loc[s]])
    && (forall s, t :: s in slots && t in slots ==> (Alias(slots, zvals, s, t) <==> w.loc[s] == w.loc[t]))
  }

  lemma JoinedRefines(slots: map<int, int>, zvals: map<int, Zval>, slots': map<int, int>, zvals': map<int, Zval>,
      w: World, w': World, t: int)
    requires Refines(slots, zvals, w) && Joined(slots, zvals, slots', zvals', t) && t !in slots && Sane(w')
    requires (forall s :: s in w'.loc <==> s in w.loc || s == t)
    requires (forall s :: s in w.loc ==> w'.loc[s] == w.loc[s] && w'.vals[w.loc[s]] == w.vals[w.loc[s]])
    requires zvals'[slots'[t]].value == w'.vals[w'.loc[t]]
    requires forall u :: u in slots' ==> (Alias(slots', zvals', t, u) <==> w'.loc[t] == w'.loc[u])
    ensures Refines(slots', zvals', w')
  {
    forall u ensures Alias(slots', zvals', u, t) <==> Alias(slots', zvals', t, u) { }
  }

  /** No zval is left without a holder. */
  ghost predicate NoLeak(zvals: map<int, Zval>) { forall z :: z in zvals ==> zvals[z].refcount > 0 }

  /** Zvals held by different variables stand for different locations: there are no more of them. */
  lemma {:induction false} Fewer(slots: map<int, int>, zvals: map<int, Zval>, w: World, keys: set<int>, used: set<nat>)
    requires Refines(slots, zvals, w)
    requires forall z :: z in keys ==> exists s :: s in slots && slots[s] == z && w.loc[s] in used
    ensures |keys| <= |used|
    decreases |keys|
  {
    if z :| z in keys {
      var s :| s in slots && slots[s] == z && w.loc[s] in used;
      forall y | y in keys - {z} ensures exists t :: t in slots && slots[t] == y && w.loc[t] in used - {w.loc[s]} {
        var t :| t in slots && slots[t] == y && w.loc[t] in used;
        assert !Alias(slots, zvals, s, t);
      }
      Fewer(slots, zvals, w, keys - {z}, used - {w.loc[s]});
    } else {
      forall z ensures z in keys <==> z in {} { }
      assert keys == {};
    }
  }

  lemma HasHolder(slots: map<int, int>, z: int)
    requires |Holders(slots, z)| > 0
    ensures exists s :: s in slots && slots[s] == z
  {
    if forall s :: s in slots ==> slots[s] != z { NoHolders(slots, z); }
  }

  lemma NoMore(slots: map<int, int>, zvals: map<int, Zval>, w: World)
    requires Refines(slots, zvals, w) && NoLeak(zvals) && Counted(slots, zvals)
    ensures |zvals| <= |w.loc.Values|
  {
    forall z | z in zvals ensures exists s :: s in slots && slots[s] == z && w.loc[s] in w.loc.Values {
      HasHolder(slots, z);
      var s :| s in slots && slots[s] == z;
      assert w.loc[s] in w.loc.Values;
    }
    Fewer(slots, zvals, w, zvals.Keys, w.loc.Values);
  }

  /** One operation on the counted store follows one operation of the reference. */
  method Perform(h: Store, op: Op, outs: seq<int>, ghost w: World) returns (outs': seq<int>)
    requires h.Valid() && Refines(h.slots, h.zvals, w) && Legal(w, op) && outs == w.outs && NoLeak(h.zvals)
    modifies h
    ensures h.Valid() && Refines(h.slots, h.zvals, Step(w, op)) && outs' == Step(w, op).outs && NoLeak(h.zvals)
  {
    ghost var s0, z0 := h.slots, h.zvals;
    outs' := outs;
    match op
    case New(t, v) =>
      h.Create(t, v);
      JoinedRefines(s0, z0, h.slots, h.zvals, w, Step(w, op), t);
    case Copy(s, t) =>
      h.PassArg(s, t);
      JoinedRefines(s0, z0, h.slots, h.zvals, w, Step(w, op), t);
    case Ref(s, t) =>
      h.Bind(s, t);
      JoinedRefines(s0, z0, h.slots, h.zvals, w, Step(w, op), t);
    case Put(s, v) => h.Replace(s, v);
    case Drop(s) => h.Drop(s);
    case Get(s) => outs' := outs + [h.zvals[h.slots[s]].value];
  }

  /** Every program reads from the counted store what it reads from the plain one, and leaves no more zvals
      behind than locations that are still named. */
  method Execute(ops: seq<Op>) returns (outs: seq<int>, live: nat)
    requires LegalRun(ops)
    ensures outs == Replay(ops).outs && live <= |Replay(ops).loc.Values|
  {
    hide LegalRun, Step, Legal, Replay, Refines;
    var h := new Store();
    outs := [];
    StartRefines(ops);
    var i := 0;
    while i < |ops|
      invariant 0 <= i <= |ops| && h.Valid() && Refines(h.slots, h.zvals, Replay(ops[..i])) && NoLeak(h.zvals)
      invariant outs == Replay(ops[..i]).outs && fresh(h)
    {
      ReplayStep(ops, i);
      outs := Perform(h, ops[i], outs, Replay(ops[..i]));
      i := i + 1;
    }
    assert ops[..i] == ops;
    NoMore(h.slots, h.zvals, Replay(ops));
    live := |h.zvals|;
  }

  lemma StartRefines(ops: seq<Op>)
    ensures Refines(map[], map[], Replay(ops[..0])) && Replay(ops[..0]).outs == []
  {
  }
}
