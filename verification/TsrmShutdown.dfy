/** tsrm_shutdown: the loops over buckets, entries and slots that destroy whatever is left. */
module TsrmShutdown {
  import opened Tsrm

  /** The objects in the first `j` slots, in order. */
  function InSlots(slots: seq<nat>, j: nat): seq<nat>
    requires j <= |slots|
  {
    if j == 0 then [] else InSlots(slots, j - 1) + (if slots[j - 1] != 0 then [slots[j - 1]] else [])
  }

  /** The objects of the first `k` entries of a chain. */
  function InChain(entries: map<nat, Entry>, c: seq<nat>, k: nat): seq<nat>
    requires k <= |c| && forall e :: e in c ==> e in entries
  {
    if k == 0 then [] else
      assert c[k - 1] in c;
      var slots := entries[c[k - 1]].slots;
      InChain(entries, c, k - 1) + InSlots(slots, |slots|)
  }

  /** The objects of the first `i` buckets. */
  ghost function InTable(s: State, i: nat): seq<nat>
    requires Table(s) && i <= |s.chains|
  {
    if i == 0 then [] else InTable(s, i - 1) + InChain(s.entries, s.chains[i - 1], |s.chains[i - 1]|)
  }

  /** The run of the three loops. `freed` are the objects given back, `destroyed` those of them whose
      destructor is called first, each in order. No object made is left, none is freed or destroyed
      twice, and the destructor is never skipped. */
  method Shutdown(s: State) returns (freed: seq<nat>, destroyed: seq<nat>)
    requires Inv(s) && s.owner == Nobody
    ensures Distinct(freed) && destroyed == freed
    ensures forall o :: o in freed <==> o in s.made && o !in s.gone
  {
    hide Once, Tls, Mutex, AllSlots, Hash, InTable;
    freed, destroyed := [], [];
    assert InTable(s, 0) == [] by { NoBuckets(s); }
    assert s.work == Nothing by { NoWork(s); }
    var i := 0;
    while i < |s.chains|
      invariant 0 <= i <= |s.chains| && freed == InTable(s, i) && destroyed == freed
    {
      var c := s.chains[i];
      var k := 0;
      ghost var before := freed;
      while k < |c|
        invariant 0 <= k <= |c| && freed == before + InChain(s.entries, c, k) && destroyed == freed
      {
        assert c[k] in c;
        var slots := s.entries[c[k]].slots;
        AllThere(s, c[k]);
        var more, called := FreeSlots(slots, s.done);
        freed, destroyed := freed + more, destroyed + called;
        k := k + 1;
      }
      NextBucket(s, i);
      i := i + 1;
    }
    TableDistinct(s, i);
    forall o ensures o in freed <==> o in s.made && o !in s.gone { TableElems(s, i, o); Left(s, o); }
  }

  /** The loop over the slots of one entry. */
  method FreeSlots(slots: seq<nat>, done: seq<bool>) returns (freed: seq<nat>, destroyed: seq<nat>)
    requires |slots| == |done| && forall j: nat :: j < |done| && slots[j] != 0 ==> !done[j]
    ensures freed == InSlots(slots, |slots|) && destroyed == freed
  {
    freed, destroyed := [], [];
    var j := 0;
    while j < |slots|
      invariant 0 <= j <= |slots| && freed == InSlots(slots, j) && destroyed == freed
    {
      if slots[j] != 0 {
        if !done[j] {
          destroyed := destroyed + [slots[j]];
        }
        freed := freed + [slots[j]];
      }
      j := j + 1;
    }
  }

  lemma NoBuckets(s: State) requires Table(s) ensures InTable(s, 0) == [] { }

  lemma NextBucket(s: State, i: nat)
    requires Table(s) && i < |s.chains|
    ensures InTable(s, i + 1) == InTable(s, i) + InChain(s.entries, s.chains[i], |s.chains[i]|)
  {
  }

  lemma NoWork(s: State)
    requires AllSlots(s) && s.owner == Nobody
    ensures s.work == Nothing
  {
  }

  /** An entry has a slot for every id, and one that is not empty belongs to an id that is not done. */
  lemma AllThere(s: State, e: nat)
    requires Inv(s) && s.work == Nothing && e in s.entries
    ensures |s.entries[e].slots| == |s.done|
    ensures forall j: nat :: j < |s.done| && s.entries[e].slots[j] != 0 ==> !s.done[j]
  {
    hide Table, Once, Mutex, Tls, Inv;
    forall j: nat | j < |s.done|
      ensures |s.entries[e].slots| == |s.done| && (s.entries[e].slots[j] != 0 ==> !s.done[j])
    {
      SlotNullIffDone(s, e, j);
    }
    SlotNullIffDone(s, e, 0);
  }

  // ---------- what the lists hold ----------

  lemma {:induction false} SlotElems(slots: seq<nat>, j: nat, o: nat)
    requires j <= |slots|
    ensures o in InSlots(slots, j) <==> o != 0 && exists k :: 0 <= k < j && slots[k] == o
    decreases j
  {
    if j > 0 { SlotElems(slots, j - 1, o); }
  }

  /** Object `o` is in a slot of entry `e`. */
  ghost predicate InEntry(s: State, e: nat, o: nat)
  {
    o != 0 && exists j: nat :: SlotIs(s, e, j, o)
  }

  lemma EntryElems(s: State, e: nat, o: nat)
    requires e in s.entries
    ensures var slots := s.entries[e].slots; o in InSlots(slots, |slots|) <==> InEntry(s, e, o)
  {
    var slots := s.entries[e].slots;
    SlotElems(slots, |slots|, o);
    if InEntry(s, e, o) { var j: nat :| SlotIs(s, e, j, o); assert slots[j] == o; }
    if k: nat :| k < |slots| && slots[k] == o { assert SlotIs(s, e, k, o); }
  }

  lemma {:induction false} ChainElems(s: State, c: seq<nat>, k: nat, o: nat)
    requires k <= |c| && forall e :: e in c ==> e in s.entries
    ensures o in InChain(s.entries, c, k) <==> exists l :: 0 <= l < k && InEntry(s, c[l], o)
    decreases k
  {
    hide InEntry, InSlots;
    if k > 0 {
      ChainElems(s, c, k - 1, o);
      assert c[k - 1] in c;
      EntryElems(s, c[k - 1], o);
    }
  }

  /** Object `o` is in an entry of bucket `i`. */
  ghost predicate InBucket(s: State, i: nat, o: nat)
    requires i < |s.chains|
  {
    exists l :: 0 <= l < |s.chains[i]| && InEntry(s, s.chains[i][l], o)
  }

  lemma {:induction false} TableElems(s: State, i: nat, o: nat)
    requires Table(s) && i <= |s.chains|
    ensures o in InTable(s, i) <==> exists k: nat :: k < i && InBucket(s, k, o)
    decreases i
  {
    hide InEntry, Hash;
    if i > 0 {
      TableElems(s, i - 1, o);
      ChainElems(s, s.chains[i - 1], |s.chains[i - 1]|, o);
      assert InBucket(s, i - 1, o) <==> o in InChain(s.entries, s.chains[i - 1], |s.chains[i - 1]|);
      hide InBucket;
    }
  }

  /** An object is left exactly if some bucket holds it. */
  lemma Left(s: State, o: nat)
    requires Inv(s)
    ensures (exists k: nat :: k < |s.chains| && InBucket(s, k, o)) <==> o in s.made && o !in s.gone
  {
    hide Tls, Mutex, AllSlots, Hash;
    if k: nat :| k < |s.chains| && InBucket(s, k, o) {
      var l :| 0 <= l < |s.chains[k]| && InEntry(s, s.chains[k][l], o);
      var j: nat :| SlotIs(s, s.chains[k][l], j, o);
    }
    if o in s.made && o !in s.gone {
      var e, j: nat :| SlotIs(s, e, j, o);
      Place(s, e, o);
    }
  }

  lemma Place(s: State, e: nat, o: nat)
    requires Table(s) && e in s.entries && o != 0 && exists j: nat :: SlotIs(s, e, j, o)
    ensures exists k: nat :: k < |s.chains| && InBucket(s, k, o)
  {
    hide SlotIs, Hash;
    var k := Hash(s.entries[e].thread, |s.chains|);
    assert e in s.chains[k];
    var l :| 0 <= l < |s.chains[k]| && s.chains[k][l] == e;
    assert InEntry(s, s.chains[k][l], o);
    assert InBucket(s, k, o);
  }

  // ---------- nothing twice ----------

  lemma Joined(a: seq<nat>, b: seq<nat>)
    requires Distinct(a) && Distinct(b) && forall o :: o in a ==> o !in b
    ensures Distinct(a + b)
  {
    forall i, j | 0 <= i < j < |a + b| ensures (a + b)[i] != (a + b)[j] {
      if i < |a| <= j { assert a[i] in a && b[j - |a|] in b; }
    }
  }

  lemma {:induction false} SlotsDistinct(slots: seq<nat>, j: nat)
    requires j <= |slots| && forall a, b :: 0 <= a < b < |slots| && slots[a] == slots[b] ==> slots[a] == 0
    ensures Distinct(InSlots(slots, j))
    decreases j
  {
    if j > 0 {
      SlotsDistinct(slots, j - 1);
      var o := slots[j - 1];
      SlotElems(slots, j - 1, o);
      if o != 0 { Joined(InSlots(slots, j - 1), [o]); }
    }
  }

  lemma EntryDistinct(s: State, e: nat)
    requires Inv(s) && e in s.entries
    ensures var slots := s.entries[e].slots; Distinct(InSlots(slots, |slots|))
  {
    hide Table, Tls, Mutex, AllSlots;
    var slots := s.entries[e].slots;
    forall a, b | 0 <= a < b < |slots| && slots[a] == slots[b] ensures slots[a] == 0 {
      assert SlotIs(s, e, a, slots[a]) && SlotIs(s, e, b, slots[a]);
    }
    SlotsDistinct(slots, |slots|);
  }

  lemma OneEntry(s: State, e: nat, f: nat, o: nat)
    requires Inv(s) && InEntry(s, e, o) && InEntry(s, f, o)
    ensures e == f
  {
    hide Table, Tls, Mutex, AllSlots;
    var j: nat :| SlotIs(s, e, j, o);
    var k: nat :| SlotIs(s, f, k, o);
  }

  lemma {:induction false} ChainDistinct(s: State, c: seq<nat>, k: nat)
    requires Inv(s) && k <= |c| && Distinct(c) && forall e :: e in c ==> e in s.entries
    ensures Distinct(InChain(s.entries, c, k))
    decreases k
  {
    hide Inv, InEntry, InSlots;
    if k > 0 {
      ChainDistinct(s, c, k - 1);
      assert c[k - 1] in c;
      EntryDistinct(s, c[k - 1]);
      var slots := s.entries[c[k - 1]].slots;
      forall o | o in InChain(s.entries, c, k - 1) ensures o !in InSlots(slots, |slots|) {
        ChainElems(s, c, k - 1, o);
        EntryElems(s, c[k - 1], o);
        var l :| 0 <= l < k - 1 && InEntry(s, c[l], o);
        if InEntry(s, c[k - 1], o) { OneEntry(s, c[l], c[k - 1], o); }
      }
      Joined(InChain(s.entries, c, k - 1), InSlots(slots, |slots|));
    }
  }

  lemma {:induction false} TableDistinct(s: State, i: nat)
    requires Inv(s) && i <= |s.chains|
    ensures Distinct(InTable(s, i))
    decreases i
  {
    hide InEntry, InSlots, InChain, Once, Tls, Mutex, AllSlots, Hash;
    if i > 0 {
      TableDistinct(s, i - 1);
      var c := s.chains[i - 1];
      ChainDistinct(s, c, |c|);
      forall o | o in InTable(s, i - 1) ensures o !in InChain(s.entries, c, |c|) {
        TableElems(s, i - 1, o);
        ChainElems(s, c, |c|, o);
        var k: nat :| k < i - 1 && InBucket(s, k, o);
        if o in InChain(s.entries, c, |c|) { OneBucket(s, k, i - 1, o); }
      }
      Joined(InTable(s, i - 1), InChain(s.entries, c, |c|));
    }
  }

  lemma OneBucket(s: State, k: nat, i: nat, o: nat)
    requires Inv(s) && k < |s.chains| && i < |s.chains| && InBucket(s, k, o) && InBucket(s, i, o)
    ensures k == i
  {
    hide InEntry, Once, Tls, Mutex, AllSlots, Hash;
    var l :| 0 <= l < |s.chains[k]| && InEntry(s, s.chains[k][l], o);
    var m :| 0 <= m < |s.chains[i]| && InEntry(s, s.chains[i][m], o);
    OneEntry(s, s.chains[k][l], s.chains[i][m], o);
    var e := s.chains[k][l];
    assert e in s.chains[k];
    assert e in s.chains[i];
    assert Hash(s.entries[e].thread, |s.chains|) == k;
    assert Hash(s.entries[e].thread, |s.chains|) == i;
  }
}
