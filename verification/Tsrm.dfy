/** The thread-safe resource manager as a state machine. Threads interleave freely; what a critical
    section does entry by entry is one step per entry, so that lock-free readers meet every
    intermediate state. */
module Tsrm {

  /** A `tsrm_tls_entry`: its thread and its slots; a slot is an object number, or 0 for NULL. */
  datatype Entry = Entry(thread: nat, slots: seq<nat>)

  /** What the holder of the mutex is in the middle of. */
  datatype Work =
    | Nothing
    | Enlarging(todo: set<nat>)             // ts_allocate_id: entries still without the new slot
    | Nulling(j: nat, todo: set<nat>)       // ts_free_id: entries whose slot `j` is still to be freed

  datatype Owner = Nobody | Owner(t: nat)

  /** `retry` holds the threads between the two calls of a recursive `ts_resource_ex`, `lost` those
      whose entry was freed under them by `ts_free_worker_threads`. `made`, `gone` and `twice` record
      the objects constructed, the objects destroyed, and whether any was destroyed again. */
  datatype State = State(
    chains: seq<seq<nat>>, entries: map<nat, Entry>, done: seq<bool>, owner: Owner, work: Work,
    locks: map<nat, int>, retry: set<nat>, tls: map<nat, nat>, lost: set<nat>,
    nextEntry: nat, nextObject: nat, made: set<nat>, gone: set<nat>, twice: bool)

  datatype Step =
    | Lock(t: nat)
    | Unlock(t: nat)
    | Found(t: nat)                         // ts_resource_ex: the chain holds the entry; unlock
    | Allocate(t: nat)                      // allocate_new_resource: append an entry; unlock; call again
    | NewId(t: nat)
    | Enlarge(t: nat, e: nat)
    | DropId(t: nat, j: nat)
    | Null(t: nat, e: nat)
    | DropDone(t: nat)
    | FreeThread(t: nat)
    | Sweep(t: nat, e: nat)                 // ts_free_worker_threads: one entry of the own bucket

  function Hash(t: nat, size: nat): (i: nat)
    requires size > 0
    ensures i < size
  {
    t % size
  }

  // ---------- steps ----------

  /** The chain search: the entry of thread `t` in its bucket. */
  ghost predicate EntryOf(s: State, t: nat, e: nat)
    requires |s.chains| > 0
  {
    e in s.chains[Hash(t, |s.chains|)] && e in s.entries && s.entries[e].thread == t
  }

  ghost predicate Holding(s: State, t: nat) { s.owner == Owner(t) }

  ghost predicate Enabled(s: State, step: Step)
    requires |s.chains| > 0
  {
    match step
    case Lock(t) => s.owner == Nobody
    case Unlock(t) => Holding(s, t) && (s.work == Nothing || s.work == Enlarging({}))
    case Found(t) => Holding(s, t) && s.work == Nothing && exists e :: EntryOf(s, t, e)
    case Allocate(t) => Holding(s, t) && s.work == Nothing && forall e :: !EntryOf(s, t, e)
    case NewId(t) => Holding(s, t) && s.work == Nothing && t !in s.retry
    case Enlarge(t, e) => Holding(s, t) && s.work.Enlarging? && e in s.work.todo && e in s.entries
    case DropId(t, j) => Holding(s, t) && s.work == Nothing && t !in s.retry && j < |s.done|
    case Null(t, e) => Holding(s, t) && s.work.Nulling? && e in s.work.todo && e in s.entries && s.work.j < |s.entries[e].slots|
    case DropDone(t) => Holding(s, t) && s.work.Nulling? && s.work.todo == {} && s.work.j < |s.done|
    case FreeThread(t) => Holding(s, t) && s.work == Nothing && t !in s.retry
    case Sweep(t, e) =>
      && Holding(s, t) && s.work == Nothing && t !in s.retry
      && e in s.chains[Hash(t, |s.chains|)] && e in s.entries && s.entries[e].thread != t
  }

  function Locks(s: State, t: nat): int { if t in s.locks then s.locks[t] else 0 }

  function Release(s: State, t: nat): State
  {
    s.(owner := Nobody, work := Nothing, locks := s.locks[t := Locks(s, t) - 1])
  }

  ghost function Objects(slots: seq<nat>): set<nat> { set j: nat | j < |slots| && slots[j] != 0 :: slots[j] }

  /** Destructor and `free` for a set of objects. */
  ghost function Destroy(s: State, objects: set<nat>): State
  {
    s.(gone := s.gone + objects, twice := s.twice || !(objects !! s.gone))
  }

  function Without(c: seq<nat>, e: nat): seq<nat>
  {
    if c == [] then [] else if c[0] == e then c[1..] else [c[0]] + Without(c[1..], e)
  }

  /** An entry is unlinked and freed with everything in it. */
  ghost function Discard(s: State, i: nat, e: nat): State
    requires i < |s.chains| && e in s.entries
  {
    Destroy(s, Objects(s.entries[e].slots)).(chains := s.chains[i := Without(s.chains[i], e)], entries := s.entries - {e})
  }

  /** The slots of a new entry: NULL for an id that is done, a new object for any other. */
  function NewSlots(done: seq<bool>, first: nat): seq<nat>
  {
    seq(|done|, i requires 0 <= i < |done| => if done[i] then 0 else first + i)
  }

  ghost function Apply(s: State, step: Step): State
    requires |s.chains| > 0 && Enabled(s, step)
  {
    match step
    case Lock(t) => s.(owner := Owner(t), locks := s.locks[t := Locks(s, t) + 1])
    case Unlock(t) => Release(s, t)
    case Found(t) => Release(s, t).(retry := s.retry - {t})
    case Allocate(t) =>
      var i, e := Hash(t, |s.chains|), s.nextEntry;
      var slots := NewSlots(s.done, s.nextObject);
      Release(s, t).(chains := s.chains[i := s.chains[i] + [e]], entries := s.entries[e := Entry(t, slots)],
                     tls := s.tls[t := e], lost := s.lost - {t}, retry := s.retry + {t},
                     nextEntry := e + 1, nextObject := s.nextObject + |s.done|, made := s.made + Objects(slots))
    case NewId(t) => s.(done := s.done + [false], work := Enlarging(s.entries.Keys))
    case Enlarge(t, e) =>
      var x := s.entries[e];
      s.(entries := s.entries[e := x.(slots := x.slots + [s.nextObject])], work := Enlarging(s.work.todo - {e}),
         nextObject := s.nextObject + 1, made := s.made + {s.nextObject})
    case DropId(t, j) => s.(work := Nulling(j, s.entries.Keys))
    case Null(t, e) =>
      var x, j := s.entries[e], s.work.j;
      var s1 := if x.slots[j] == 0 then s else Destroy(s, {x.slots[j]});
      s1.(entries := s.entries[e := x.(slots := x.slots[j := 0])], work := Nulling(j, s.work.todo - {e}))
    case DropDone(t) => s.(done := s.done[s.work.j := true], work := Nothing)
    case FreeThread(t) =>
      if e :| EntryOf(s, t, e) then
        var s1 := Discard(s, Hash(t, |s.chains|), e);
        s1.(tls := s.tls - {t}, lost := s.lost - {t})
      else s
    case Sweep(t, e) =>
      Discard(s, Hash(t, |s.chains|), e).(lost := s.lost + {s.entries[e].thread})
  }

  // ---------- the invariant ----------

  ghost predicate Distinct(c: seq<nat>) { forall i, j :: 0 <= i < j < |c| ==> c[i] != c[j] }

  /** At most one entry per thread, linked once, in the bucket of its thread. */
  ghost predicate Table(s: State)
  {
    && |s.chains| > 0
    && (forall i, e :: 0 <= i < |s.chains| && e in s.chains[i] ==> e in s.entries && Hash(s.entries[e].thread, |s.chains|) == i)
    && (forall i :: 0 <= i < |s.chains| ==> Distinct(s.chains[i]))
    && (forall e :: e in s.entries ==> e in s.chains[Hash(s.entries[e].thread, |s.chains|)] && e < s.nextEntry)
    && (forall e, f :: e in s.entries && f in s.entries && s.entries[e].thread == s.entries[f].thread ==> e == f)
  }

  /** How many slots an entry has, and which of them are NULL. */
  function Count(s: State, e: nat): int
  {
    if s.work.Enlarging? && e in s.work.todo then |s.done| - 1 else |s.done|
  }

  predicate Cleared(s: State, e: nat, j: nat)
    requires j < |s.done|
  {
    s.done[j] || (s.work.Nulling? && s.work.j == j && e !in s.work.todo)
  }

  ghost predicate SlotsOk(s: State, e: nat)
    requires e in s.entries
  {
    var slots := s.entries[e].slots;
    |slots| == Count(s, e) && forall j: nat :: j < |slots| ==> (slots[j] == 0 <==> Cleared(s, e, j))
  }

  ghost predicate AllSlots(s: State)
  {
    && (forall e :: e in s.entries ==> SlotsOk(s, e))
    && (s.work != Nothing ==> s.owner != Nobody)
    && (s.work.Enlarging? ==> |s.done| > 0 && !s.done[|s.done| - 1] && forall e :: e in s.work.todo ==> e in s.entries)
    && (s.work.Nulling? ==> s.work.j < |s.done| && forall e :: e in s.work.todo ==> e in s.entries)
  }

  /** A thread's TLS pointer is its linked entry, and dangles exactly if the entry was swept. */
  ghost predicate Tls(s: State)
  {
    && (forall t :: t in s.tls ==> s.tls[t] < s.nextEntry && (s.tls[t] in s.entries <==> t !in s.lost))
    && (forall t :: t in s.tls && s.tls[t] in s.entries ==> s.entries[s.tls[t]].thread == t)
    && (forall e :: e in s.entries ==> s.entries[e].thread in s.tls && s.tls[s.entries[e].thread] == e)
    && (forall t :: t in s.lost ==> t in s.tls)
    && (forall t :: t in s.retry ==> t in s.tls)
  }

  ghost predicate Mutex(s: State)
  {
    forall t :: Locks(s, t) == if s.owner == Owner(t) then 1 else 0
  }

  ghost predicate SlotIs(s: State, e: nat, j: nat, o: nat)
  {
    e in s.entries && j < |s.entries[e].slots| && s.entries[e].slots[j] == o
  }

  /** Objects are in one slot each until they are destroyed, which happens once. */
  ghost predicate Once(s: State)
  {
    && s.nextObject > 0 && !s.twice
    && (forall e, j: nat, o :: SlotIs(s, e, j, o) && o != 0 ==> o in s.made && o !in s.gone)
    && (forall e, j: nat, f, k: nat, o :: SlotIs(s, e, j, o) && SlotIs(s, f, k, o) && o != 0 ==> e == f && j == k)
    && (forall o :: o in s.made ==> 0 < o < s.nextObject)
    && (forall o :: o in s.made ==> o in s.gone || exists e, j: nat :: SlotIs(s, e, j, o))
    && (forall o :: o in s.gone ==> o in s.made)
  }

  ghost predicate Inv(s: State) { Table(s) && AllSlots(s) && Tls(s) && Mutex(s) && Once(s) }

  // ---------- every step keeps the invariant ----------

  lemma {:induction false} WithoutElems(c: seq<nat>, e: nat)
    requires Distinct(c)
    ensures Distinct(Without(c, e)) && forall x :: x in Without(c, e) <==> x in c && x != e
  {
    if c != [] {
      var r := c[1..];
      WithoutElems(r, e);
      forall x ensures x in c <==> x == c[0] || x in r { }
      forall x | x in r ensures x != c[0] { var i :| 0 <= i < |r| && r[i] == x; assert c[i + 1] == x; }
      if c[0] != e { FrontDistinct(c[0], Without(r, e)); }
    }
  }

  lemma FrontDistinct(x: nat, r: seq<nat>)
    requires Distinct(r) && x !in r
    ensures Distinct([x] + r)
  {
  }

  lemma OnceKept(s: State, s': State)
    requires Once(s) && s'.entries == s.entries && s'.made == s.made && s'.gone == s.gone && s'.twice == s.twice
    requires s'.nextObject == s.nextObject
    ensures Once(s')
  {
    forall e, j: nat, o ensures SlotIs(s', e, j, o) <==> SlotIs(s, e, j, o) { }
    hide SlotIs;
    forall o | o in s'.made ensures o in s'.gone || exists e, j: nat :: SlotIs(s', e, j, o) {
      if o !in s.gone { var e, j: nat :| SlotIs(s, e, j, o); assert SlotIs(s', e, j, o); }
    }
  }

  lemma MutexTurn(s: State, s': State, t: nat, d: int)
    requires Mutex(s) && s'.locks == s.locks[t := Locks(s, t) + d]
    requires (d == 1 && s.owner == Nobody && s'.owner == Owner(t)) || (d == -1 && s.owner == Owner(t) && s'.owner == Nobody)
    ensures Mutex(s')
  {
    forall u
      ensures Locks(s', u) == if s'.owner == Owner(u) then 1 else 0
    {
      assert Locks(s, u) == if s.owner == Owner(u) then 1 else 0;
    }
  }

  lemma MutexKept(s: State, s': State)
    requires Mutex(s) && s'.locks == s.locks && s'.owner == s.owner
    ensures Mutex(s')
  {
    forall u
      ensures Locks(s', u) == if s'.owner == Owner(u) then 1 else 0
    {
      assert Locks(s, u) == if s.owner == Owner(u) then 1 else 0;
    }
  }

  /** The same entries with the same threads. */
  ghost predicate SameThreads(s: State, s': State)
  {
    && s'.chains == s.chains && s'.nextEntry == s.nextEntry && (forall e :: e in s'.entries <==> e in s.entries)
    && (forall e :: e in s.entries && e in s'.entries ==> s'.entries[e].thread == s.entries[e].thread)
  }

  lemma TableKept(s: State, s': State)
    requires Table(s) && SameThreads(s, s')
    ensures Table(s')
  {
    hide Hash, Distinct;
  }

  lemma TlsKept(s: State, s': State)
    requires Tls(s) && SameThreads(s, s') && s'.tls == s.tls && s'.lost == s.lost
    requires forall t :: t in s'.retry ==> t in s.retry
    ensures Tls(s')
  {
  }

  /** A step that touches neither entries nor objects. */
  predicate Quiet(step: Step)
  {
    step.Lock? || step.Unlock? || step.Found? || step.NewId? || step.DropId? || step.DropDone?
  }

  lemma QuietSteps(s: State, step: Step)
    requires Inv(s) && Enabled(s, step) && Quiet(step)
    ensures Inv(Apply(s, step))
  {
    hide Once, Mutex, SlotsOk, Tls, Hash, Distinct, EntryOf;
    var s' := Apply(s, step);
    hide Table;
    QuietSame(s, step);
    QuietWork(s, step);
    QuietMutex(s, step);
    forall e | e in s'.entries ensures SlotsOk(s', e) { QuietSlots(s, step, e); }
    hide Apply, Enabled;
    OnceKept(s, s');
    TableKept(s, s');
    TlsKept(s, s');
  }

  lemma QuietSame(s: State, step: Step)
    requires |s.chains| > 0 && Enabled(s, step) && Quiet(step)
    ensures var s' := Apply(s, step);
            && s'.chains == s.chains && s'.entries == s.entries && s'.nextEntry == s.nextEntry && s'.nextObject == s.nextObject
            && s'.made == s.made && s'.gone == s.gone && s'.twice == s.twice
            && s'.tls == s.tls && s'.lost == s.lost && forall t :: t in s'.retry ==> t in s.retry
  {
    hide Hash, EntryOf;
  }

  lemma QuietWork(s: State, step: Step)
    requires |s.chains| > 0 && AllSlots(s) && Enabled(s, step) && Quiet(step)
    ensures var s' := Apply(s, step);
            && (s'.work != Nothing ==> s'.owner != Nobody)
            && (s'.work.Enlarging? ==> |s'.done| > 0 && !s'.done[|s'.done| - 1] && forall e :: e in s'.work.todo ==> e in s'.entries)
            && (s'.work.Nulling? ==> s'.work.j < |s'.done| && forall e :: e in s'.work.todo ==> e in s'.entries)
  {
    hide Hash, EntryOf, SlotsOk;
  }

  lemma QuietMutex(s: State, step: Step)
    requires |s.chains| > 0 && Mutex(s) && Enabled(s, step) && Quiet(step)
    ensures Mutex(Apply(s, step))
  {
    hide Mutex, Hash, EntryOf;
    var s' := Apply(s, step);
    match step
    case Lock(t) => MutexTurn(s, s', t, 1);
    case Unlock(t) => MutexTurn(s, s', t, -1);
    case Found(t) => MutexTurn(s, s', t, -1);
    case NewId(t) => MutexKept(s, s');
    case DropId(t, j) => MutexKept(s, s');
    case DropDone(t) => MutexKept(s, s');
  }

  lemma QuietSlots(s: State, step: Step, e: nat)
    requires Inv(s) && Enabled(s, step) && Quiet(step)
    requires e in s.entries
    ensures e in Apply(s, step).entries && SlotsOk(Apply(s, step), e)
  {
    hide Once, Mutex, Tls, Hash, EntryOf;
    assert SlotsOk(s, e);
    var s' := Apply(s, step);
    forall j: nat | j < |s'.entries[e].slots| ensures s'.entries[e].slots[j] == 0 <==> Cleared(s', e, j) { }
  }

  lemma NewSlotsSpec(done: seq<bool>, first: nat, j: nat)
    requires j < |done| && first > 0
    ensures |NewSlots(done, first)| == |done| && (NewSlots(done, first)[j] == 0 <==> done[j])
    ensures !done[j] ==> NewSlots(done, first)[j] == first + j
  {
  }

  lemma AllocateStep(s: State, t: nat)
    requires Inv(s) && Enabled(s, Allocate(t))
    ensures Inv(Apply(s, Allocate(t)))
  {
    hide Once, Mutex, SlotsOk;
    var s' := Apply(s, Allocate(t));
    MutexTurn(s, s', t, -1);
    AllocateOnce(s, t);
    NoEntry(s, t);
    forall e | e in s'.entries ensures SlotsOk(s', e) { AllocateSlots(s, t, e); }
    AllocateTable(s, t);
    hide Table, AllSlots;
    assert Tls(s') by { AllocateTls(s, t); }
  }

  lemma NoEntry(s: State, t: nat)
    requires Table(s) && forall e :: !EntryOf(s, t, e)
    ensures forall e :: e in s.entries ==> s.entries[e].thread != t
  {
    forall e | e in s.entries ensures s.entries[e].thread != t { assert !EntryOf(s, t, e); }
  }

  lemma AllocateTls(s: State, t: nat)
    requires Table(s) && Tls(s) && Enabled(s, Allocate(t)) && forall e :: e in s.entries ==> s.entries[e].thread != t
    ensures Tls(Apply(s, Allocate(t)))
  {
  }

  lemma AllocateTable(s: State, t: nat)
    requires Table(s) && Enabled(s, Allocate(t)) && forall e :: e in s.entries ==> s.entries[e].thread != t
    ensures Table(Apply(s, Allocate(t)))
  {
    hide Hash, Distinct, EntryOf, NewSlots;
    var s', e, h := Apply(s, Allocate(t)), s.nextEntry, Hash(t, |s.chains|);
    var c := s.chains[h];
    forall f ensures f in c + [e] <==> f in c || f == e { }
    FreshEntry(s, h);
    BackDistinct(c, e);
    forall i, f | 0 <= i < |s'.chains| && f in s'.chains[i]
      ensures f in s'.entries && Hash(s'.entries[f].thread, |s'.chains|) == i
    {
      FreshEntry(s, i);
      if i == h && f == e { assert s'.entries[f].thread == t; }
      else { assert f in s.chains[i] && s'.entries[f] == s.entries[f]; }
    }
  }

  lemma FreshEntry(s: State, i: nat)
    requires Table(s) && i < |s.chains|
    ensures s.nextEntry !in s.chains[i]
  {
    forall e | e in s.chains[i] ensures e < s.nextEntry { assert e in s.entries; }
  }

  lemma BackDistinct(c: seq<nat>, e: nat)
    requires Distinct(c) && e !in c
    ensures Distinct(c + [e])
  {
  }

  lemma AllocateSlots(s: State, t: nat, e: nat)
    requires Inv(s) && Enabled(s, Allocate(t)) && e in Apply(s, Allocate(t)).entries
    ensures SlotsOk(Apply(s, Allocate(t)), e)
  {
    hide Mutex, Tls;
    var s' := Apply(s, Allocate(t));
    if e == s.nextEntry {
      forall j: nat | j < |s.done|
        ensures s'.entries[e].slots[j] == 0 <==> Cleared(s', e, j)
      {
        NewSlotsSpec(s.done, s.nextObject, j);
      }
    } else {
      assert SlotsOk(s, e);
      forall j: nat | j < |s.done|
        ensures s'.entries[e].slots[j] == 0 <==> Cleared(s', e, j)
      {
        assert Cleared(s, e, j) == Cleared(s', e, j);
      }
    }
  }

  lemma AllocateOnce(s: State, t: nat)
    requires Inv(s) && Enabled(s, Allocate(t))
    ensures Once(Apply(s, Allocate(t)))
  {
    hide AllSlots, Tls, Mutex;
    var s', x := Apply(s, Allocate(t)), s.nextEntry;
    forall e, j: nat, o
      ensures SlotIs(s', e, j, o) <==> (if e == x then j < |s.done| && NewSlots(s.done, s.nextObject)[j] == o else SlotIs(s, e, j, o))
    {
    }
    hide Table, SlotIs;
    forall j: nat | j < |s.done|
      ensures NewSlots(s.done, s.nextObject)[j] == 0 || NewSlots(s.done, s.nextObject)[j] == s.nextObject + j
    {
      NewSlotsSpec(s.done, s.nextObject, j);
    }
    forall o | o in s'.made ensures o in s'.gone || exists e, j: nat :: SlotIs(s', e, j, o) {
      if o in s.made {
        if o !in s.gone { var e, j: nat :| SlotIs(s, e, j, o); OldEntry(s, e, j, o, x); assert SlotIs(s', e, j, o); }
      } else {
        var j: nat :| j < |s.done| && NewSlots(s.done, s.nextObject)[j] == o;
        assert SlotIs(s', x, j, o);
      }
    }
  }

  lemma OldEntry(s: State, e: nat, j: nat, o: nat, x: nat)
    requires Table(s) && SlotIs(s, e, j, o) && x == s.nextEntry
    ensures e != x
  {
  }

  // ---------- one entry at a time ----------

  lemma EnlargeStep(s: State, t: nat, e: nat)
    requires Inv(s) && Enabled(s, Enlarge(t, e))
    ensures Inv(Apply(s, Enlarge(t, e)))
  {
    hide Once, Mutex, Tls, Hash, Distinct, SlotsOk;
    var s' := Apply(s, Enlarge(t, e));
    hide Table;
    MutexKept(s, s');
    EnlargeOnce(s, t, e);
    TableKept(s, s');
    TlsKept(s, s');
    forall f | f in s'.entries ensures SlotsOk(s', f) { EnlargeSlots(s, t, e, f); }
  }

  lemma EnlargeSlots(s: State, t: nat, e: nat, f: nat)
    requires Inv(s) && Enabled(s, Enlarge(t, e)) && f in s.entries
    ensures SlotsOk(Apply(s, Enlarge(t, e)), f)
  {
    hide Once, Mutex, Tls, Hash, Distinct;
    var s' := Apply(s, Enlarge(t, e));
    hide Table;
    NextPositive(s);
    assert SlotsOk(s, f);
    forall j: nat | j < |s'.entries[f].slots| ensures s'.entries[f].slots[j] == 0 <==> Cleared(s', f, j) { }
  }

  lemma NextPositive(s: State)
    requires Once(s)
    ensures s.nextObject > 0 && s.nextObject !in s.made && s.nextObject !in s.gone
  {
  }

  lemma EnlargeOnce(s: State, t: nat, e: nat)
    requires Inv(s) && Enabled(s, Enlarge(t, e))
    ensures Once(Apply(s, Enlarge(t, e)))
  {
    hide AllSlots, Tls, Mutex, Hash;
    var s', n := Apply(s, Enlarge(t, e)), |s.entries[e].slots|;
    forall f, j: nat, o ensures SlotIs(s', f, j, o) <==> SlotIs(s, f, j, o) || (f == e && j == n && o == s.nextObject) { }
    forall o ensures !SlotIs(s, e, n, o) { }
    hide SlotIs;
    forall o | o in s'.made ensures o in s'.gone || exists f, j: nat :: SlotIs(s', f, j, o) {
      if o in s.made {
        if o !in s.gone { var f, j: nat :| SlotIs(s, f, j, o); assert SlotIs(s', f, j, o); }
      } else {
        assert SlotIs(s', e, n, o);
      }
    }
  }

  lemma NullStep(s: State, t: nat, e: nat)
    requires Inv(s) && Enabled(s, Null(t, e))
    ensures Inv(Apply(s, Null(t, e)))
  {
    hide Once, Mutex, Tls, Hash, Distinct, SlotsOk, Destroy;
    var s' := Apply(s, Null(t, e));
    hide Table;
    NullSame(s, t, e);
    MutexKept(s, s');
    NullOnce(s, t, e);
    TableKept(s, s');
    TlsKept(s, s');
    forall f | f in s'.entries ensures SlotsOk(s', f) { NullSlots(s, t, e, f); }
  }

  lemma NullSame(s: State, t: nat, e: nat)
    requires Table(s) && Enabled(s, Null(t, e))
    ensures var s' := Apply(s, Null(t, e));
            && SameThreads(s, s') && s'.tls == s.tls && s'.lost == s.lost && s'.retry == s.retry
            && s'.locks == s.locks && s'.owner == s.owner
            && s'.done == s.done && s'.work == Nulling(s.work.j, s.work.todo - {e})
  {
    hide Hash, Distinct;
  }

  lemma NullSlots(s: State, t: nat, e: nat, f: nat)
    requires Inv(s) && Enabled(s, Null(t, e)) && f in s.entries
    ensures f in Apply(s, Null(t, e)).entries && SlotsOk(Apply(s, Null(t, e)), f)
  {
    hide Once, Mutex, Tls, Hash, Distinct;
    var s' := Apply(s, Null(t, e));
    hide Table;
    assert SlotsOk(s, f);
    forall j: nat | j < |s'.entries[f].slots| ensures s'.entries[f].slots[j] == 0 <==> Cleared(s', f, j) { }
  }

  lemma NullOnce(s: State, t: nat, e: nat)
    requires Inv(s) && Enabled(s, Null(t, e))
    ensures Once(Apply(s, Null(t, e)))
  {
    hide AllSlots, Tls, Mutex, Hash;
    var s', k := Apply(s, Null(t, e)), s.work.j;
    var x := s.entries[e].slots[k];
    assert SlotIs(s, e, k, x);
    forall f, j: nat, o | o != 0 ensures SlotIs(s', f, j, o) <==> SlotIs(s, f, j, o) && !(f == e && j == k) { }
    hide SlotIs;
    forall o | o in s'.made && o !in s'.gone ensures exists f, j: nat :: SlotIs(s', f, j, o) {
      var f, j: nat :| SlotIs(s, f, j, o);
      assert SlotIs(s', f, j, o);
    }
  }

  /** An entry is discarded by its own thread or by a sweep. */
  lemma DiscardTable(s: State, i: nat, e: nat)
    requires Table(s) && i < |s.chains| && e in s.chains[i]
    ensures Table(Discard(s, i, e))
  {
    hide Hash;
    var s' := Discard(s, i, e);
    WithoutElems(s.chains[i], e);
    forall k, f | 0 <= k < |s'.chains| && f in s'.chains[k]
      ensures f in s'.entries && Hash(s'.entries[f].thread, |s'.chains|) == k
    {
      assert f in s.chains[k];
    }
  }

  lemma DiscardSlots(s: State, i: nat, e: nat)
    requires Table(s) && AllSlots(s) && i < |s.chains| && e in s.chains[i] && s.work == Nothing
    ensures AllSlots(Discard(s, i, e))
  {
    var s' := Discard(s, i, e);
    forall f | f in s'.entries ensures SlotsOk(s', f) {
      assert SlotsOk(s, f);
      forall j: nat | j < |s.done| ensures Cleared(s', f, j) == Cleared(s, f, j) { }
    }
  }

  lemma DiscardOnce(s: State, i: nat, e: nat)
    requires Once(s) && i < |s.chains| && e in s.entries
    ensures Once(Discard(s, i, e))
  {
    var s' := Discard(s, i, e);
    var slots := s.entries[e].slots;
    forall o | o in Objects(slots) ensures o != 0 && exists j: nat :: SlotIs(s, e, j, o) {
      var j: nat :| j < |slots| && slots[j] == o && o != 0;
      assert SlotIs(s, e, j, o);
    }
    forall f, j: nat, o ensures SlotIs(s', f, j, o) <==> SlotIs(s, f, j, o) && f != e { }
    forall j: nat, o | SlotIs(s, e, j, o) && o != 0 ensures o in Objects(slots) { }
    hide SlotIs, Objects;
    forall o | o in s'.made && o !in s'.gone ensures exists f, j: nat :: SlotIs(s', f, j, o) {
      var f, j: nat :| SlotIs(s, f, j, o);
      assert SlotIs(s', f, j, o);
    }
  }

  lemma FreeThreadStep(s: State, t: nat)
    requires Inv(s) && Enabled(s, FreeThread(t))
    ensures Inv(Apply(s, FreeThread(t)))
  {
    hide Once, Mutex, SlotsOk, Hash, Distinct, AllSlots, Discard;
    var s' := Apply(s, FreeThread(t));
    if e :| EntryOf(s, t, e) && s' == Discard(s, Hash(t, |s.chains|), e).(tls := s.tls - {t}, lost := s.lost - {t}) {
      FreeEntry(s, t, e);
    }
  }

  lemma FreeEntry(s: State, t: nat, e: nat)
    requires Inv(s) && EntryOf(s, t, e) && Enabled(s, FreeThread(t))
    ensures Inv(Discard(s, Hash(t, |s.chains|), e).(tls := s.tls - {t}, lost := s.lost - {t}))
  {
    hide Once, Mutex, SlotsOk, Hash, Distinct, AllSlots;
    var i := Hash(t, |s.chains|);
    var s1 := Discard(s, i, e);
    var s' := s1.(tls := s.tls - {t}, lost := s.lost - {t});
    assert Tls(s');
    hide Tls;
    MutexKept(s, s');
    DiscardTable(s, i, e);
    TableKept(s1, s');
    DiscardSlots(s, i, e);
    DiscardOnce(s, i, e);
    OnceKept(s1, s');
    SlotsKept(s1, s');
  }

  lemma SlotsKept(s: State, s': State)
    requires AllSlots(s) && s'.entries == s.entries && s'.done == s.done && s'.work == s.work && s'.owner == s.owner
    ensures AllSlots(s')
  {
    forall f | f in s'.entries ensures SlotsOk(s', f) {
      assert SlotsOk(s, f);
      forall j: nat | j < |s.done| ensures Cleared(s', f, j) == Cleared(s, f, j) { }
    }
  }

  lemma SweepStep(s: State, t: nat, e: nat)
    requires Inv(s) && Enabled(s, Sweep(t, e))
    ensures Inv(Apply(s, Sweep(t, e)))
  {
    hide Once, Mutex, SlotsOk, Hash, Distinct, AllSlots, Tls;
    var i := Hash(t, |s.chains|);
    var s1 := Discard(s, i, e);
    var s' := Apply(s, Sweep(t, e));
    SweepTls(s, t, e);
    MutexKept(s, s');
    DiscardTable(s, i, e);
    TableKept(s1, s');
    DiscardSlots(s, i, e);
    DiscardOnce(s, i, e);
    OnceKept(s1, s');
    SlotsKept(s1, s');
  }

  lemma SweepTls(s: State, t: nat, e: nat)
    requires Table(s) && Tls(s) && Enabled(s, Sweep(t, e))
    ensures Tls(Apply(s, Sweep(t, e)))
  {
    hide Hash, Distinct, Without;
  }

  lemma StepKeepsInv(s: State, step: Step)
    requires Inv(s) && Enabled(s, step)
    ensures Inv(Apply(s, step))
  {
    hide Inv, Enabled;
    match step
    case Allocate(t) => AllocateStep(s, t);
    case Enlarge(t, e) => EnlargeStep(s, t, e);
    case Null(t, e) => NullStep(s, t, e);
    case FreeThread(t) => FreeThreadStep(s, t);
    case Sweep(t, e) => SweepStep(s, t, e);
    case _ => QuietSteps(s, step);
  }

  // ---------- runs ----------

  /** tsrm_startup. */
  function Start(size: nat): State
  {
    State(seq(size, _ => []), map[], [], Nobody, Nothing, map[], {}, map[], {}, 1, 1, {}, {}, false)
  }

  lemma StartInv(size: nat)
    requires size > 0
    ensures Inv(Start(size))
  {
  }

  /** `s'` is reached from `s` by `steps`, each of which is enabled when it is taken. */
  ghost predicate Run(s: State, steps: seq<Step>, s': State)
    decreases |steps|
  {
    |s.chains| > 0 &&
    if steps == [] then s' == s else Enabled(s, steps[0]) && Run(Apply(s, steps[0]), steps[1..], s')
  }

  /** Every interleaving of any number of threads keeps the invariant. */
  lemma {:induction false} RunInv(s: State, steps: seq<Step>, s': State)
    requires Inv(s) && Run(s, steps, s')
    ensures Inv(s')
    decreases |steps|
  {
    hide Inv, Enabled, Apply;
    if steps != [] {
      StepKeepsInv(s, steps[0]);
      RunInv(Apply(s, steps[0]), steps[1..], s');
    }
  }

  /** From startup, no run of any number of threads leaves the invariant. */
  lemma EveryRun(size: nat, steps: seq<Step>, s: State)
    requires size > 0 && Run(Start(size), steps, s)
    ensures Inv(s)
  {
    hide Inv, Run, Start;
    StartInv(size);
    RunInv(Start(size), steps, s);
  }

  // ---------- what it means ----------

  /** The lock-free path returns the very entry that a search of the chain would return, unless that
      entry was swept, and then the pointer dangles and the search finds nothing. */
  lemma FastPath(s: State, t: nat)
    requires Inv(s) && t in s.tls
    ensures t !in s.lost ==> EntryOf(s, t, s.tls[t]) && forall e :: EntryOf(s, t, e) ==> e == s.tls[t]
    ensures t in s.lost ==> s.tls[t] !in s.entries && forall e :: !EntryOf(s, t, e)
  {
    hide Once, Mutex, AllSlots;
  }

  lemma {:induction false} RunSnoc(s: State, steps: seq<Step>, s': State, step: Step)
    requires Run(s, steps, s') && |s'.chains| > 0 && Enabled(s', step) && |Apply(s', step).chains| > 0
    ensures Run(s, steps + [step], Apply(s', step))
    decreases |steps|
  {
    hide Apply, Enabled;
    if steps == [] {
      assert [step][1..] == [] && steps + [step] == [step];
    } else {
      assert (steps + [step])[1..] == steps[1..] + [step];
      RunSnoc(Apply(s, steps[0]), steps[1..], s', step);
    }
  }

  /** A thread without an entry calls `ts_resource_ex`: it gets one and finds it by the second call. */
  lemma FirstFetch(s0: State, steps: seq<Step>, s: State, t: nat) returns (more: seq<Step>, s': State)
    requires Run(s0, steps, s) && Idle(s) && t !in s.retry && forall e :: !EntryOf(s, t, e)
    ensures Run(s0, more, s') && Idle(s') && s'.retry == s.retry
    ensures more == steps + [Lock(t), Allocate(t), Lock(t), Found(t)]
    ensures s'.tls == s.tls[t := s.nextEntry] && s'.nextEntry == s.nextEntry + 1 && s'.lost == s.lost - {t}
    ensures s'.entries == s.entries[s.nextEntry := Entry(t, NewSlots(s.done, s.nextObject))]
    ensures s'.done == s.done && s'.nextObject == s.nextObject + |s.done|
    ensures var h := Hash(t, |s.chains|); s'.chains == s.chains[h := s.chains[h] + [s.nextEntry]]
  {
    hide NewSlots, Objects, Hash, Run;
    var s1 := Apply(s, Lock(t));
    RunSnoc(s0, steps, s, Lock(t));
    forall e ensures !EntryOf(s1, t, e) { assert !EntryOf(s, t, e); }
    var s2 := Apply(s1, Allocate(t));
    RunSnoc(s0, steps + [Lock(t)], s1, Allocate(t));
    var s3 := Apply(s2, Lock(t));
    RunSnoc(s0, steps + [Lock(t)] + [Allocate(t)], s2, Lock(t));
    assert EntryOf(s3, t, s.nextEntry);
    RunSnoc(s0, steps + [Lock(t)] + [Allocate(t)] + [Lock(t)], s3, Found(t));
    more, s' := steps + [Lock(t)] + [Allocate(t)] + [Lock(t)] + [Found(t)], Apply(s3, Found(t));
  }

  ghost predicate Idle(s: State) { |s.chains| > 0 && s.owner == Nobody && s.work == Nothing }

  /** The sweep does reach other threads: of any two threads in one bucket, the second to come can
      leave the first with a dangling pointer, from startup on. */
  lemma SweptRun(size: nat, t: nat, u: nat) returns (steps: seq<Step>, s: State)
    requires size > 0 && t != u && Hash(t, size) == Hash(u, size)
    ensures Run(Start(size), steps, s) && Inv(s) && t in s.lost && t in s.tls && s.tls[t] !in s.entries
  {
    hide Hash, Run, Inv;
    var s0 := Start(size);
    assert Run(s0, [], s0) by { RunNone(s0); }
    var more, a := FirstFetch(s0, [], s0, t);
    forall e ensures !EntryOf(a, u, e) { }
    var more', b := FirstFetch(s0, more, a, u);
    var c := Apply(b, Lock(u));
    RunSnoc(s0, more', b, Lock(u));
    RunSnoc(s0, more' + [Lock(u)], c, Sweep(u, 1));
    steps, s := more' + [Lock(u)] + [Sweep(u, 1)], Apply(c, Sweep(u, 1));
    EveryRun(size, steps, s);
    LostDangles(s, t);
  }

  lemma RunNone(s: State) requires |s.chains| > 0 ensures Run(s, [], s) { }

  lemma LostDangles(s: State, t: nat)
    requires Inv(s) && t in s.lost
    ensures t in s.tls && s.tls[t] !in s.entries
  {
  }

  /** What a reader finds in slot `j` of an entry while no critical section is under way on it. */
  lemma SlotNullIffDone(s: State, e: nat, j: nat)
    requires Inv(s) && e in s.entries && s.work == Nothing
    ensures |s.entries[e].slots| == |s.done|
    ensures j < |s.done| ==> (s.entries[e].slots[j] == 0 <==> s.done[j])
  {
    hide Once, Mutex, Table, Tls;
    assert SlotsOk(s, e);
    if j < |s.done| { assert Cleared(s, e, j) == s.done[j]; }
  }

  lemma StepKeepsSlot(s: State, step: Step, e: nat, j: nat, o: nat)
    requires Inv(s) && Enabled(s, step) && SlotIs(s, e, j, o) && o != 0
    ensures SlotIs(Apply(s, step), e, j, o) || o in Apply(s, step).gone
  {
    hide Once, Mutex, Tls, AllSlots, Hash, Distinct, Without, NewSlots;
    if step.FreeThread? {
      var s' := Apply(s, step);
      var t := step.t;
      if f :| EntryOf(s, t, f) && s' == Discard(s, Hash(t, |s.chains|), f).(tls := s.tls - {t}, lost := s.lost - {t}) { }
    }
  }

  /** An object stays in its slot until it is destroyed, whatever any thread does in between: what a
      thread has once been given for an id it is given again. */
  lemma {:induction false} RunKeepsSlot(s: State, steps: seq<Step>, s': State, e: nat, j: nat, o: nat)
    requires Inv(s) && Run(s, steps, s') && SlotIs(s, e, j, o) && o != 0
    ensures o !in s'.gone ==> SlotIs(s', e, j, o)
    decreases |steps|
  {
    hide Inv, Enabled, Apply, SlotIs;
    if steps != [] {
      var s1 := Apply(s, steps[0]);
      StepKeepsInv(s, steps[0]);
      StepKeepsSlot(s, steps[0], e, j, o);
      if SlotIs(s1, e, j, o) { RunKeepsSlot(s1, steps[1..], s', e, j, o); } else { RunKeepsGone(s1, steps[1..], s', o); }
    }
  }

  lemma StepKeepsGone(s: State, step: Step, o: nat)
    requires |s.chains| > 0 && Enabled(s, step) && o in s.gone
    ensures o in Apply(s, step).gone
  {
    hide Objects, Hash, Without, NewSlots;
  }

  lemma {:induction false} RunKeepsGone(s: State, steps: seq<Step>, s': State, o: nat)
    requires Run(s, steps, s') && o in s.gone
    ensures o in s'.gone
    decreases |steps|
  {
    hide Enabled, Apply;
    if steps != [] {
      StepKeepsGone(s, steps[0], o);
      RunKeepsGone(Apply(s, steps[0]), steps[1..], s', o);
    }
  }

  /** The second call of a recursive `ts_resource_ex` finds the entry, unless it was swept meanwhile. */
  lemma RetryFinds(s: State, t: nat)
    requires Inv(s) && t in s.retry && Holding(s, t) && s.work == Nothing && t !in s.lost
    ensures Enabled(s, Found(t)) && !Enabled(s, Allocate(t))
  {
    FastPath(s, t);
  }
}
