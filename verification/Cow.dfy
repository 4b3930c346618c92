/** Reference-counted values with copy on write (the zval macros), against a store of plain values in
    which slots name locations and references share them. */
module Cow {

  /** A zval: its value, how many slots hold it, and whether they form a reference set. */
  datatype Zval = Zval(value: int, refcount: int, isRef: bool)

  ghost function Holders(slots: map<int, int>, z: int): set<int>
  {
    set s | s in slots && slots[s] == z
  }

  lemma HoldersAdd(slots: map<int, int>, s: int, z: int, x: int)
    requires s !in slots
    ensures |Holders(slots[s := z], x)| == |Holders(slots, x)| + (if x == z then 1 else 0)
  {
    var a, b := Holders(slots, x), Holders(slots[s := z], x);
    forall c ensures c in b <==> c in a || (c == s && x == z) { }
    if x == z { assert b == a + {s}; } else { assert b == a; }
  }

  lemma HoldersRemove(slots: map<int, int>, s: int, x: int)
    requires s in slots
    ensures |Holders(slots - {s}, x)| == |Holders(slots, x)| - (if x == slots[s] then 1 else 0)
  {
    var a, b := Holders(slots, x), Holders(slots - {s}, x);
    forall c ensures c in a <==> c in b || (c == s && x == slots[s]) { }
    if x == slots[s] { assert a == b + {s} && s !in b; } else { assert b == a; }
  }

  lemma HoldersMove(slots: map<int, int>, s: int, z: int, x: int)
    requires s in slots && slots[s] != z
    ensures |Holders(slots[s := z], x)| == |Holders(slots, x)| - (if x == slots[s] then 1 else 0) + (if x == z then 1 else 0)
  {
    HoldersRemove(slots, s, x);
    HoldersAdd(slots - {s}, s, z, x);
    assert (slots - {s})[s := z] == slots[s := z];
  }

  lemma SoleHolder(slots: map<int, int>, s: int, t: int)
    requires s in slots && t in slots && slots[s] == slots[t] && |Holders(slots, slots[s])| == 1
    ensures s == t
  {
    var h := Holders(slots, slots[s]);
    assert s in h && t in h && |h - {s}| == 0;
    assert t !in h - {s};
  }

  /** Refcounts are exactly the numbers of holders. */
  ghost predicate Counted(slots: map<int, int>, zvals: map<int, Zval>)
  {
    && (forall s :: s in slots ==> slots[s] in zvals)
    && (forall z :: z in zvals ==> zvals[z].refcount == |Holders(slots, z)|)
  }

  /** Two slots are aliases: writes through one are seen through the other. */
  ghost predicate Alias(slots: map<int, int>, zvals: map<int, Zval>, s: int, t: int)
  {
    s in slots && t in slots && (s == t || (slots[s] == slots[t] && slots[s] in zvals && zvals[slots[s]].isRef))
  }

  /** Values and aliases are the same before and after. */
  ghost predicate Unobservable(slots: map<int, int>, zvals: map<int, Zval>, slots': map<int, int>, zvals': map<int, Zval>)
  {
    && (forall s :: s in slots <==> s in slots')
    && (forall s :: s in slots && s in slots' ==>
          slots[s] in zvals && slots'[s] in zvals' && zvals'[slots'[s]].value == zvals[slots[s]].value)
    && (forall s, t :: Alias(slots', zvals', s, t) <==> Alias(slots, zvals, s, t))
  }

  /** One slot more; values and aliases of the others are as before. */
  ghost predicate Joined(slots: map<int, int>, zvals: map<int, Zval>, slots': map<int, int>, zvals': map<int, Zval>, s: int)
  {
    && (forall t :: t in slots' <==> t in slots || t == s)
    && (forall t :: t in slots' ==> slots'[t] in zvals')
    && (forall t :: t in slots ==> slots[t] in zvals && zvals'[slots'[t]].value == zvals[slots[t]].value)
    && (forall t, u :: t in slots && u in slots ==> (Alias(slots', zvals', t, u) <==> Alias(slots, zvals, t, u)))
  }

  /** A slot has left zval `z` for a copy of its own; the old zval has one holder less. */
  ghost predicate Copied(slots: map<int, int>, zvals: map<int, Zval>, slots': map<int, int>, zvals': map<int, Zval>, s: int,
      copy: Zval)
  {
    && s in slots && slots[s] in zvals && s in slots' && slots'[s] !in zvals && slots' == slots[s := slots'[s]]
    && zvals' == zvals[slots[s] := zvals[slots[s]].(refcount := zvals[slots[s]].refcount - 1)][slots'[s] := copy]
  }

  /** The slot shares its zval without being a reference, so that a write has to copy it. */
  predicate Shared(slots: map<int, int>, zvals: map<int, Zval>, s: int)
    requires s in slots && slots[s] in zvals
  {
    !zvals[slots[s]].isRef && zvals[slots[s]].refcount > 1
  }

  /** The slot `p` has taken `z`, or a copy of it, and released what it held. */
  ghost predicate Moved(slots: map<int, int>, zvals: map<int, Zval>, slots': map<int, int>, zvals': map<int, Zval>, p: int, z: int)
  {
    && p in slots && slots[p] in zvals && z in zvals && p in slots' && slots' == slots[p := slots'[p]]
    && (if zvals[z].isRef && zvals[z].refcount > 0 then slots'[p] !in zvals else slots'[p] == z)
    && zvals' == Dropped(Taken(zvals, z, slots'[p]), slots[p])
  }

  /** One holder less: the last one frees the zval. */
  function Dropped(zvals: map<int, Zval>, z: int): map<int, Zval>
    requires z in zvals
  {
    if zvals[z].refcount == 1 then zvals - {z} else zvals[z := zvals[z].(refcount := zvals[z].refcount - 1)]
  }

  /** One holder more for `z`, or a copy for that holder if others have `z` as a reference. */
  function Taken(zvals: map<int, Zval>, z: int, value: int): map<int, Zval>
    requires z in zvals
  {
    if zvals[z].isRef && zvals[z].refcount > 0 then zvals[value := Zval(zvals[z].value, 1, false)]
    else zvals[z := zvals[z].(refcount := zvals[z].refcount + 1)]
  }

  /** Refcounts are right except that `value` already counts a holder to come. */
  ghost predicate Announced(slots: map<int, int>, zvals: map<int, Zval>, value: int)
  {
    && (forall s :: s in slots ==> slots[s] in zvals)
    && (forall z :: z in zvals ==> zvals[z].refcount == |Holders(slots, z)| + (if z == value then 1 else 0))
  }

  class Store {
    var slots: map<int, int>
    var zvals: map<int, Zval>
    var unused: int

    ghost predicate Valid()
      reads this
    {
      Counted(slots, zvals) && forall z :: z in zvals ==> z < unused
    }

    constructor ()
      ensures Valid() && slots == map[] && zvals == map[]
    {
      slots, zvals, unused := map[], map[], 0;
    }

    /** SEPARATE_ZVAL: the slot gets a zval of its own; it leaves whatever it shared. */
    method Separate(s: int)
      requires Valid() && s in slots
      modifies this
      ensures Valid() && s in slots && (forall c :: c in slots <==> c in old(slots))
      ensures (forall c :: c in slots && c != s ==> slots[c] == old(slots)[c])
      ensures zvals[slots[s]].refcount == 1 && zvals[slots[s]].value == old(zvals[slots[s]].value)
      ensures zvals[slots[s]].isRef == (old(zvals[slots[s]].isRef) && old(zvals[slots[s]].refcount) <= 1)
      ensures forall z :: z in old(zvals) ==>
                z in zvals && zvals[z].value == old(zvals)[z].value && zvals[z].isRef == old(zvals)[z].isRef
      ensures old(zvals[slots[s]].refcount) > 1 ==>
                Copied(old(slots), old(zvals), slots, zvals, s, Zval(old(zvals[slots[s]].value), 1, false))
      ensures old(zvals[slots[s]].refcount) <= 1 ==> slots == old(slots) && zvals == old(zvals)
    {
      var z := slots[s];
      if zvals[z].refcount > 1 {
        var n := unused;
        unused := unused + 1;
        zvals := zvals[z := zvals[z].(refcount := zvals[z].refcount - 1)];
        zvals := zvals[n := Zval(zvals[z].value, 1, false)];
        forall x | x in zvals ensures zvals[x].refcount == |Holders(slots[s := n], x)| {
          HoldersMove(slots, s, n, x);
          if x == n { NoHolders(slots, n); }
        }
        slots := slots[s := n];
      } else {
        assert s in Holders(slots, z);
        HoldersAtLeast(slots, s);
      }
    }

    /** SEPARATE_ZVAL_IF_NOT_REF: nobody can tell, and afterwards only aliases share the zval. */
    method SeparateIfNotRef(s: int)
      requires Valid() && s in slots
      modifies this
      ensures Valid() && Unobservable(old(slots), old(zvals), slots, zvals)
      ensures s in slots && forall t :: t in slots && slots[t] == slots[s] ==> Alias(slots, zvals, s, t)
      ensures if old(Shared(slots, zvals, s)) then
                Copied(old(slots), old(zvals), slots, zvals, s, Zval(old(zvals[slots[s]].value), 1, false))
              else slots == old(slots) && zvals == old(zvals)
    {
      if !zvals[slots[s]].isRef {
        Separate(s);
        forall t | t in slots && slots[t] == slots[s] ensures t == s { SoleHolder(slots, s, t); }
      }
    }

    /** SEPARATE_ZVAL_TO_MAKE_IS_REF: likewise unobservable; the slot is ready to be aliased. */
    method SeparateToMakeIsRef(s: int)
      requires Valid() && s in slots
      modifies this
      ensures Valid() && Unobservable(old(slots), old(zvals), slots, zvals)
      ensures s in slots && slots[s] in zvals && zvals[slots[s]].isRef
      ensures if old(Shared(slots, zvals, s)) then
                Copied(old(slots), old(zvals), slots, zvals, s, Zval(old(zvals[slots[s]].value), 1, true))
              else slots == old(slots) && zvals == old(zvals)[slots[s] := old(zvals[slots[s]]).(isRef := true)]
    {
      if !zvals[slots[s]].isRef {
        Separate(s);
        forall t | t in slots && slots[t] == slots[s] ensures t == s { SoleHolder(slots, s, t); }
        zvals := zvals[slots[s] := zvals[slots[s]].(isRef := true)];
      }
    }

    /** REPLACE_ZVAL_VALUE: exactly the aliases of the slot change. */
    method Replace(s: int, v: int)
      requires Valid() && s in slots
      modifies this
      ensures Valid() && (forall t :: t in slots <==> t in old(slots))
      ensures forall t :: t in slots ==>
                zvals[slots[t]].value == if old(Alias(slots, zvals, s, t)) then v else old(zvals[slots[t]].value)
      ensures forall t, u :: Alias(slots, zvals, t, u) <==> old(Alias(slots, zvals, t, u))
      ensures if old(Shared(slots, zvals, s)) then Copied(old(slots), old(zvals), slots, zvals, s, Zval(v, 1, false))
              else slots == old(slots) && zvals == old(zvals)[slots[s] := old(zvals[slots[s]]).(value := v)]
    {
      SeparateIfNotRef(s);
      var isRef, refcount := zvals[slots[s]].isRef, zvals[slots[s]].refcount;
      zvals := zvals[slots[s] := Zval(v, refcount, isRef)];
    }

    /** A new variable. */
    method Create(s: int, v: int)
      requires Valid() && s !in slots
      modifies this
      ensures Valid() && Joined(old(slots), old(zvals), slots, zvals, s) && zvals[slots[s]].value == v
      ensures forall t :: Alias(slots, zvals, s, t) <==> t == s
      ensures slots[s] !in old(zvals) && slots == old(slots)[s := slots[s]]
      ensures zvals == old(zvals)[slots[s] := Zval(v, 1, false)]
    {
      var n := unused;
      unused := unused + 1;
      forall x | x in zvals || x == n ensures |Holders(slots[s := n], x)| == (if x in zvals then zvals[x].refcount else 1) {
        HoldersAdd(slots, s, n, x);
        if x == n { NoHolders(slots, n); }
      }
      zvals := zvals[n := Zval(v, 1, false)];
      slots := slots[s := n];
    }

    /** SEPARATE_ARG_IF_REF: an argument slot gets the value, never the reference. */
    method PassArg(s: int, t: int)
      requires Valid() && s in slots && t !in slots
      modifies this
      ensures Valid() && Joined(old(slots), old(zvals), slots, zvals, t)
      ensures zvals[slots[t]].value == old(zvals[slots[s]].value)
      ensures forall u :: Alias(slots, zvals, t, u) <==> u == t
      ensures slots == old(slots)[t := slots[t]]
      ensures var z := old(slots[s]);
              if old(zvals)[z].isRef then slots[t] !in old(zvals) && zvals == old(zvals)[slots[t] := Zval(old(zvals)[z].value, 1, false)]
              else slots[t] == z && zvals == old(zvals)[z := old(zvals)[z].(refcount := old(zvals)[z].refcount + 1)]
    {
      var z := slots[s];
      if zvals[z].isRef {
        Create(t, zvals[z].value);
      } else {
        forall x | x in zvals
          ensures |Holders(slots[t := z], x)| == zvals[x].refcount + (if x == z then 1 else 0)
        {
          HoldersAdd(slots, t, z, x);
        }
        zvals := zvals[z := zvals[z].(refcount := zvals[z].refcount + 1)];
        slots := slots[t := z];
      }
    }

    /** A reference to an existing slot: it is made a reference, and the new slot holds it too. */
    method Bind(s: int, t: int)
      requires Valid() && s in slots && t !in slots
      modifies this
      ensures Valid() && Joined(old(slots), old(zvals), slots, zvals, t)
      ensures zvals[slots[t]].value == old(zvals[slots[s]].value)
      ensures forall u :: Alias(slots, zvals, t, u) <==> u == t || old(Alias(slots, zvals, s, u))
      ensures slots == old(slots)[s := slots[t]][t := slots[t]]
      ensures var q, x := old(slots[s]), old(zvals[slots[s]]);
              if old(Shared(slots, zvals, s)) then
                slots[t] !in old(zvals) && zvals == old(zvals)[q := x.(refcount := x.refcount - 1)][slots[t] := Zval(x.value, 2, true)]
              else slots[t] == q && zvals == old(zvals)[q := Zval(x.value, x.refcount + 1, true)]
    {
      SeparateToMakeIsRef(s);
      JoinRef(s, t);
    }

    /** One more slot in a reference set. */
    method JoinRef(s: int, t: int)
      requires Valid() && s in slots && t !in slots && zvals[slots[s]].isRef
      modifies this
      ensures Valid() && Joined(old(slots), old(zvals), slots, zvals, t)
      ensures zvals[slots[t]].value == old(zvals[slots[s]].value)
      ensures forall u :: Alias(slots, zvals, t, u) <==> u == t || old(Alias(slots, zvals, s, u))
      ensures var z := old(slots[s]);
              slots == old(slots)[t := z] && zvals == old(zvals)[z := old(zvals)[z].(refcount := old(zvals)[z].refcount + 1)]
    {
      var z := slots[s];
      forall x | x in zvals
        ensures |Holders(slots[t := z], x)| == zvals[x].refcount + (if x == z then 1 else 0)
      {
        HoldersAdd(slots, t, z, x);
      }
      zvals := zvals[z := zvals[z].(refcount := zvals[z].refcount + 1)];
      slots := slots[t := z];
    }

    /** zval_ptr_dtor on a slot that goes away; a reference set of one is no reference any more. */
    method Drop(s: int)
      requires Valid() && s in slots
      modifies this
      ensures Valid() && slots == old(slots) - {s}
      ensures var z := old(slots[s]);
              && (forall x :: x != z ==> (x in zvals <==> x in old(zvals)) && (x in zvals ==> zvals[x] == old(zvals)[x]))
              && (z in zvals <==> old(zvals)[z].refcount > 1)
              && (z in zvals ==> zvals[z].refcount == old(zvals)[z].refcount - 1)
              && (z in zvals ==> (zvals[z].isRef <==> old(zvals)[z].isRef && zvals[z].refcount > 1))
      ensures forall t :: t in slots ==> zvals[slots[t]].value == old(zvals)[old(slots)[t]].value
      ensures forall t, u :: t in slots && u in slots ==> (Alias(slots, zvals, t, u) <==> old(Alias(slots, zvals, t, u)))
    {
      var z := slots[s];
      forall x | x in zvals
        ensures |Holders(slots - {s}, x)| == zvals[x].refcount - (if x == z then 1 else 0)
      {
        HoldersRemove(slots, s, x);
      }
      slots := slots - {s};
      zvals := zvals[z := zvals[z].(refcount := zvals[z].refcount - 1)];
      if zvals[z].refcount == 0 {
        forall t | t in slots ensures slots[t] != z { if slots[t] == z { HoldersAtLeast(slots, t); assert false; } }
        zvals := zvals - {z};
      } else if zvals[z].refcount == 1 {
        forall t, u | t in slots && u in slots && slots[t] == z && slots[u] == z ensures t == u { SoleHolder(slots, t, u); }
        zvals := zvals[z := zvals[z].(isRef := false)];
      }
    }

    /** zend_update_static_property on the slot `p` of the property, with the value in zval `z`, which
        may be a temporary that no slot holds: exactly the aliases of the property change. */
    method UpdateStatic(p: int, z: int)
      requires Valid() && p in slots && z in zvals
      modifies this
      ensures Valid() && (forall t :: t in slots <==> t in old(slots))
      ensures forall t :: t in slots ==>
                zvals[slots[t]].value == if old(Alias(slots, zvals, p, t)) then old(zvals[z].value) else old(zvals[slots[t]].value)
      ensures forall t, u :: Alias(slots, zvals, t, u) <==> old(Alias(slots, zvals, t, u))
      ensures var q := old(slots[p]);
              if q == z then slots == old(slots) && zvals == old(zvals)
              else if old(zvals)[q].isRef then
                && slots == old(slots)
                && var changed := old(zvals)[q := old(zvals)[q].(value := old(zvals)[z].value)];
                   zvals == if old(zvals)[z].refcount <= 0 then changed - {z} else changed
              else Moved(old(slots), old(zvals), slots, zvals, p, z)
    {
      if slots[p] != z {
        if zvals[slots[p]].isRef {
          zvals := zvals[slots[p] := zvals[slots[p]].(value := zvals[z].value)];
          if zvals[z].refcount <= 0 {
            forall t | t in slots ensures slots[t] != z { if slots[t] == z { HoldersAtLeast(slots, t); assert false; } }
            zvals := zvals - {z};
          }
        } else {
          MoveTo(p, z);
        }
      }
      assert slots[p] == z ==> forall t :: Alias(slots, zvals, p, t) ==> slots[t] == z;
    }

    /** The property is no reference: it takes the zval, or a copy if that is a reference, and its old
        zval is released. */
    method MoveTo(p: int, z: int)
      requires Valid() && p in slots && z in zvals && slots[p] != z && !zvals[slots[p]].isRef
      modifies this
      ensures Valid() && (forall t :: t in slots <==> t in old(slots))
      ensures forall t :: t in slots ==>
                zvals[slots[t]].value == if t == p then old(zvals[z].value) else old(zvals[slots[t]].value)
      ensures forall t, u :: Alias(slots, zvals, t, u) <==> old(Alias(slots, zvals, t, u))
      ensures Moved(old(slots), old(zvals), slots, zvals, p, z)
    {
      var value := Acquire(z);
      Reseat(p, value);
    }

    /** One holder more is announced for `z`, or for a copy of it if it is a reference of others. */
    method Acquire(z: int) returns (value: int)
      requires Valid() && z in zvals
      modifies this
      ensures slots == old(slots) && Announced(slots, zvals, value) && value in zvals
      ensures zvals[value].value == old(zvals[z].value)
      ensures forall x :: x in zvals ==> x < unused
      ensures forall x :: x in old(zvals) ==>
                x in zvals && zvals[x].value == old(zvals[x].value) && zvals[x].isRef == old(zvals[x].isRef)
      ensures if old(zvals)[z].isRef && old(zvals)[z].refcount > 0 then value !in old(zvals) else value == z
      ensures zvals == Taken(old(zvals), z, value)
      ensures zvals[value].isRef ==> zvals[value].refcount == 1
    {
      value := z;
      zvals := zvals[value := zvals[value].(refcount := zvals[value].refcount + 1)];
      if zvals[value].isRef && zvals[value].refcount > 1 {
        zvals := zvals[value := zvals[value].(refcount := zvals[value].refcount - 1)];
        zvals := zvals[unused := Zval(zvals[value].value, 1, false)];
        value := unused;
        unused := unused + 1;
        NoHolders(slots, value);
      } else if zvals[value].isRef {
        assert |Holders(slots, value)| == 0;
      }
    }

    method Reseat(p: int, value: int)
      requires Announced(slots, zvals, value) && value in zvals && p in slots && slots[p] != value
      requires !zvals[slots[p]].isRef
      requires (forall x :: x in zvals ==> x < unused) && (zvals[value].isRef ==> zvals[value].refcount == 1)
      modifies this
      ensures Valid() && slots == old(slots)[p := value]
      ensures forall t :: t in slots ==> zvals[slots[t]].value == old(zvals)[slots[t]].value
      ensures forall t, u :: Alias(slots, zvals, t, u) <==> old(Alias(slots, zvals, t, u))
      ensures zvals == Dropped(old(zvals), old(slots[p]))
    {
      var garbage := slots[p];
      Reseated(slots, zvals, p, value);
      slots := slots[p := value];
      zvals := zvals[garbage := zvals[garbage].(refcount := zvals[garbage].refcount - 1)];
      Collect(garbage);
    }

    /** The zval that has lost a holder is freed if it was the last one. */
    method Collect(garbage: int)
      requires Valid() && garbage in zvals && !zvals[garbage].isRef
      modifies this`zvals
      ensures Valid()
      ensures zvals == if old(zvals)[garbage].refcount == 0 then old(zvals) - {garbage} else old(zvals)
      ensures forall t, u :: Alias(slots, zvals, t, u) <==> old(Alias(slots, zvals, t, u))
      ensures forall t :: t in slots ==> slots[t] in zvals && zvals[slots[t]] == old(zvals)[slots[t]]
    {
      if zvals[garbage].refcount == 0 {
        forall t | t in slots ensures slots[t] != garbage { if slots[t] == garbage { HoldersAtLeast(slots, t); assert false; } }
        zvals := zvals - {garbage};
      } else if zvals[garbage].refcount == 1 {
        zvals := zvals[garbage := zvals[garbage].(isRef := false)];
      }
    }

    /** _zend_get_parameters_array: the first `n` arguments, each a reference or unshared. */
    method GetParameters(args: seq<int>, n: nat) returns (ok: bool, params: seq<int>)
      requires Valid() && (forall k :: 0 <= k < |args| ==> args[k] in slots)
      requires (forall j, k :: 0 <= j < k < |args| ==> args[j] != args[k])
      modifies this
      ensures ok <==> n <= |args|
      ensures Valid() && Unobservable(old(slots), old(zvals), slots, zvals)
      ensures ok ==> |params| == n && forall k :: 0 <= k < n ==> args[k] in slots && params[k] == slots[args[k]]
      ensures ok ==>
                forall k, t :: 0 <= k < n && t in slots && slots[t] == params[k] ==> Alias(slots, zvals, args[k], t)
    {
      params := [];
      if n > |args| {
        return false, params;
      }
      var k := 0;
      while k < n
        invariant 0 <= k <= n && Valid() && Unobservable(old(slots), old(zvals), slots, zvals)
        invariant |params| == k && forall j :: 0 <= j < k ==> args[j] in slots && params[j] == slots[args[j]]
        invariant forall j, t :: 0 <= j < k && t in slots && slots[t] == params[j] ==> Alias(slots, zvals, args[j], t)
      {
        SeparateIfNotRef(args[k]);
        params := params + [slots[args[k]]];
        k := k + 1;
      }
      ok := true;
    }
  }

  /** A slot that is no alias of others changes to the announced zval. */
  lemma Reseated(slots: map<int, int>, zvals: map<int, Zval>, p: int, value: int)
    requires Announced(slots, zvals, value) && value in zvals && p in slots && slots[p] != value
    requires !zvals[slots[p]].isRef
    requires zvals[value].isRef ==> zvals[value].refcount == 1
    ensures var slots', zvals' := slots[p := value], zvals[slots[p] := zvals[slots[p]].(refcount := zvals[slots[p]].refcount - 1)];
            Counted(slots', zvals') && forall t, u :: Alias(slots', zvals', t, u) <==> Alias(slots, zvals, t, u)
  {
    var slots', zvals' := slots[p := value], zvals[slots[p] := zvals[slots[p]].(refcount := zvals[slots[p]].refcount - 1)];
    forall x | x in zvals ensures zvals'[x].refcount == |Holders(slots', x)| { HoldersMove(slots, p, value, x); }
    assert Counted(slots', zvals');
    if zvals[value].isRef {
      forall t | t in slots' && slots'[t] == value ensures t == p { SoleHolder(slots', t, p); }
    }
  }

  lemma NoHolders(slots: map<int, int>, n: int)
    requires forall s :: s in slots ==> slots[s] != n
    ensures |Holders(slots, n)| == 0
  {
    forall s ensures s !in Holders(slots, n) { }
    assert Holders(slots, n) == {};
  }

  lemma HoldersAtLeast(slots: map<int, int>, s: int)
    requires s in slots
    ensures |Holders(slots, slots[s])| >= 1
  {
    assert s in Holders(slots, slots[s]);
  }
}
