/** Whole runs of a client: the blocks of a heap behave like independent arrays. */
module Runs {
  import opened Words
  import opened Memory
  import opened Bitmaps
  import opened Sums
  import opened Index
  import opened Tiling
  import opened HeapMemory
  import opened HeapOps
  import opened Release
  import opened HeapFacts
  import opened HeapEffects
  import opened ZendHeap

  /** Operations name blocks by the order in which they were allocated. */
  datatype Op =
    | Alloc(n: nat, hint: int)
    | Drop(k: nat)
    | Resize(k: nat, n: nat, hint: int)
    | Put(k: nat, off: nat, v: int)
    | Get(k: nat, off: nat)

  /** The reference semantics: an object is a size and the cells stored so far. */
  datatype Object = Object(size: nat, cells: map<nat, int>)

  datatype Reading = Known(v: int) | Unknown

  datatype World = World(objects: map<nat, Object>, next: nat, outs: seq<Reading>)

  predicate Legal(w: World, op: Op)
  {
    match op
    case Alloc(n, _) => n < WORD
    case Drop(k) => k in w.objects
    case Resize(k, n, _) => k in w.objects && n < WORD
    case Put(k, off, _) => k in w.objects && off < w.objects[k].size
    case Get(k, off) => k in w.objects && off < w.objects[k].size
  }

  function Step(w: World, op: Op): World
    requires Legal(w, op)
  {
    match op
    case Alloc(n, _) => World(w.objects[w.next := Object(n, map[])], w.next + 1, w.outs)
    case Drop(k) => w.(objects := w.objects - {k})
    case Resize(k, n, _) => w.(objects := w.objects[k := Object(n, map i | i in w.objects[k].cells && i < n :: w.objects[k].cells[i])])
    case Put(k, off, v) => w.(objects := w.objects[k := w.objects[k].(cells := w.objects[k].cells[off := v])])
    case Get(k, off) => w.(outs := w.outs + [if off in w.objects[k].cells then Known(w.objects[k].cells[off]) else Unknown])
  }

  /** The legal runs: each operation is legal in the world the earlier ones lead to. */
  ghost predicate LegalRun(ops: seq<Op>)
  {
    forall i {:trigger Legal(Replay(ops[..i]), ops[i])} :: 0 <= i < |ops| ==> Legal(Replay(ops[..i]), ops[i])
  }

  ghost function Replay(ops: seq<Op>): World
    decreases |ops|
  {
    if ops == [] then World(map[], 0, [])
    else
      var w := Replay(ops[..|ops| - 1]);
      var op := ops[|ops| - 1];
      if Legal(w, op) then Step(w, op) else w
  }

  lemma ReplayStep(ops: seq<Op>, i: int)
    requires 0 <= i < |ops| && Legal(Replay(ops[..i]), ops[i])
    ensures Replay(ops[..i + 1]) == Step(Replay(ops[..i]), ops[i])
  {
    assert ops[..i + 1][..i] == ops[..i];
  }

  /** The cells of object `o` lie in the payload at `p`. */
  ghost predicate HeldAt(m: Mem, b: Blocks, p: int, o: Object)
  {
    && p - HEADER in b && b[p - HEADER].kind == Live(o.size)
    && forall i :: i in o.cells ==> i < o.size && Rd(m, p + i) == o.cells[i]
  }

  /** Every object has a block of its own, and every live block belongs to an object. */
  ghost predicate Holds(m: Mem, b: Blocks, ptrs: map<nat, int>, w: World)
  {
    && (forall k :: k in ptrs <==> k in w.objects)
    && (forall k :: k in ptrs ==> k < w.next && HeldAt(m, b, ptrs[k], w.objects[k]))
    && (forall j, k :: j in ptrs && k in ptrs && j != k ==> ptrs[j] != ptrs[k])
    && (forall a {:trigger a in b} :: a in b && b[a].kind.Live? ==> exists k :: k in ptrs && ptrs[k] == a + HEADER)
  }

  /** An object whose block has kept its payload is still there. */
  lemma StillHeld(m: Mem, m': Mem, b: Blocks, b': Blocks, x: int, p: int, o: Object)
    requires HeldAt(m, b, p, o) && LiveKept(m, m', b, b', x) && p - HEADER != x && Roomy(b)
    ensures HeldAt(m', b', p, o)
  {
    var a := p - HEADER;
    assert a in b && SamePayload(m, m', b, a);
    forall i | i in o.cells ensures Rd(m', p + i) == o.cells[i] { assert Rd(m', p + i) == Rd(m, p + i); }
  }

  lemma AllocStep(m: Mem, m': Mem, b: Blocks, b': Blocks, ptrs: map<nat, int>, w: World, p: int, n: nat, hint: int)
    requires Holds(m, b, ptrs, w) && Granted(m, m', b, b', p, n) && Roomy(b) && n < WORD
    ensures Holds(m', b', ptrs[w.next := p], Step(w, Alloc(n, hint)))
  {
    hide LiveKept, Roomy, HeldAt;
    var ptrs', w' := ptrs[w.next := p], Step(w, Alloc(n, hint));
    forall k | k in ptrs' ensures HeldAt(m', b', ptrs'[k], w'.objects[k]) && k < w'.next {
      if k != w.next {
        NotGranted(m, b, ptrs[k], w.objects[k], p);
        StillHeld(m, m', b, b', p - HEADER, ptrs[k], w.objects[k]);
      } else {
        EmptyHeld(m', b', p, n);
      }
    }
    forall k | k in ptrs ensures ptrs[k] != p { NotGranted(m, b, ptrs[k], w.objects[k], p); }
    forall a | a in b' && b'[a].kind.Live? ensures exists k :: k in ptrs' && ptrs'[k] == a + HEADER {
      if a == p - HEADER { assert ptrs'[w.next] == a + HEADER; }
      else {
        assert a in b;
        var k :| k in ptrs && ptrs[k] == a + HEADER;
        assert ptrs'[k] == a + HEADER;
      }
    }
  }

  lemma NotGranted(m: Mem, b: Blocks, q: int, o: Object, p: int)
    requires HeldAt(m, b, q, o) && !(p - HEADER in b && b[p - HEADER].kind.Live?)
    ensures q != p
  {
  }

  lemma EmptyHeld(m: Mem, b: Blocks, p: int, n: nat)
    requires p - HEADER in b && b[p - HEADER].kind == Live(n)
    ensures HeldAt(m, b, p, Object(n, map[]))
  {
  }

  lemma FreeStep(m: Mem, m': Mem, b: Blocks, b': Blocks, ptrs: map<nat, int>, w: World, k: nat)
    requires Holds(m, b, ptrs, w) && k in ptrs && Roomy(b)
    requires var a := ptrs[k] - HEADER;
             LiveKept(m, m', b, b', a) && NoNewLive(b, b', a) && !(a in b' && b'[a].kind.Live?)
    ensures Holds(m', b', ptrs - {k}, Step(w, Op.Drop(k)))
  {
    hide LiveKept, Roomy, HeldAt;
    var ptrs', w' := ptrs - {k}, Step(w, Op.Drop(k));
    forall j | j in ptrs' ensures HeldAt(m', b', ptrs'[j], w'.objects[j]) {
      StillHeld(m, m', b, b', ptrs[k] - HEADER, ptrs[j], w.objects[j]);
    }
    forall a | a in b' && b'[a].kind.Live? ensures exists j :: j in ptrs' && ptrs'[j] == a + HEADER {
      assert a in b;
      var j :| j in ptrs && ptrs[j] == a + HEADER;
      assert j in ptrs';
    }
  }

  lemma ResizeStep(m: Mem, m': Mem, b: Blocks, b': Blocks, ptrs: map<nat, int>, w: World, k: nat, q: int, n: nat, hint: int)
    requires Holds(m, b, ptrs, w) && k in ptrs && Roomy(b) && n < WORD && Resized(m, m', b, b', ptrs[k], q, n)
    ensures Holds(m', b', ptrs[k := q], Step(w, Resize(k, n, hint)))
  {
    hide LiveKept, Roomy, HeldAt, Copied;
    var p, ptrs', w' := ptrs[k], ptrs[k := q], Step(w, Resize(k, n, hint));
    ResizedHeld(m, m', b, b', p, q, w.objects[k], n);
    forall j | j in ptrs && j != k ensures HeldAt(m', b', ptrs[j], w.objects[j]) && ptrs[j] != q {
      StillHeld(m, m', b, b', p - HEADER, ptrs[j], w.objects[j]);
      if q != p { NotGranted(m, b, ptrs[j], w.objects[j], q); }
    }
    forall a | a in b' && b'[a].kind.Live? ensures exists j :: j in ptrs' && ptrs'[j] == a + HEADER {
      if a == q - HEADER { assert ptrs'[k] == a + HEADER; }
      else {
        assert a in b;
        var j :| j in ptrs && ptrs[j] == a + HEADER;
        assert ptrs'[j] == a + HEADER;
      }
    }
  }

  /** The leading cells have come along. */
  lemma ResizedHeld(m: Mem, m': Mem, b: Blocks, b': Blocks, p: int, q: int, o: Object, n: nat)
    requires HeldAt(m, b, p, o) && Resized(m, m', b, b', p, q, n) && Roomy(b)
    ensures HeldAt(m', b', q, Object(n, map i | i in o.cells && i < n :: o.cells[i]))
  {
    forall i | i in o.cells && i < n ensures Rd(m', q + i) == o.cells[i] {
      assert Rd(m', q + i) == Rd(m, q + i - q + p);
    }
  }

  lemma PutStep(m: Mem, m': Mem, b: Blocks, ptrs: map<nat, int>, w: World, k: nat, off: nat, v: int)
    requires Holds(m, b, ptrs, w) && k in ptrs && off < w.objects[k].size && Roomy(b)
    requires LiveKept(m, m', b, b, ptrs[k] - HEADER) && Rd(m', ptrs[k] + off) == v
    requires forall x :: x != ptrs[k] + off ==> Rd(m', x) == Rd(m, x)
    ensures Holds(m', b, ptrs, Step(w, Put(k, off, v)))
  {
    hide LiveKept, Roomy, HeldAt;
    var w' := Step(w, Put(k, off, v));
    forall j | j in ptrs ensures HeldAt(m', b, ptrs[j], w'.objects[j]) {
      if j == k { PutHeld(m, m', b, ptrs[k], w.objects[k], off, v); }
      else { StillHeld(m, m', b, b, ptrs[k] - HEADER, ptrs[j], w.objects[j]); }
    }
  }

  lemma PutHeld(m: Mem, m': Mem, b: Blocks, p: int, o: Object, off: nat, v: int)
    requires HeldAt(m, b, p, o) && off < o.size && Rd(m', p + off) == v
    requires forall x :: x != p + off ==> Rd(m', x) == Rd(m, x)
    ensures HeldAt(m', b, p, o.(cells := o.cells[off := v]))
  {
  }

  lemma GetStep(m: Mem, b: Blocks, ptrs: map<nat, int>, w: World, k: nat, off: nat)
    requires Holds(m, b, ptrs, w) && Legal(w, Get(k, off))
    ensures Holds(m, b, ptrs, Step(w, Get(k, off)))
  {
    hide HeldAt;
  }

  // ---------- execution ----------

  /** What was read is what the reference knows. */
  ghost predicate Agree(outs: seq<int>, expected: seq<Reading>)
  {
    |outs| == |expected| && forall i :: 0 <= i < |outs| && expected[i].Known? ==> outs[i] == expected[i].v
  }

  ghost predicate Running(h: Heap, ptrs: map<nat, int>, w: World)
    reads h
  {
    h.Valid() && Holds(h.mem, h.g.blocks, ptrs, w)
  }

  /** Validity of a heap, said of a snapshot. */
  ghost predicate Sane(v: Snapshot)
  {
    && BodyOk(v.mem, v.base, v.g) && v.storage == v.g.segs && v.g.caches.loose == -1 && Coalesced(v.g.blocks)
    && IndexInv(v.mem, v.base, v.idx) && IndexedBut(v.idx, v.g.blocks, {})
    && BitsOk(v.freeBitmap, v.largeBitmap, v.idx, v.tidy) && CountOk(v.restCount, v.idx)
    && v.size == Sum(UsedOf(v.g.blocks)) + v.flushed && 0 <= v.flushed
    && v.cached == Sum(CachedOf(v.g.blocks)) && v.cached < CACHE_SIZE + MAX_SMALL
    && v.realSize == Sum(v.g.segs) && v.size <= v.peak && v.realSize <= v.realPeak
    && AnyUnit(v.unit) && UnitSegs(v.g.segs, v.unit) && Roomy(v.g.blocks)
  }

  lemma SaneIff(h: Heap)
    ensures Sane(h.Now()) <==> h.Valid()
  {
    hide BodyOk, IndexInv, BitsOk, CountOk, IndexedBut, Coalesced, Sum, UsedOf, CachedOf, Roomy, AnyUnit;
  }

  /** What `op` comes to in a heap that looks like `v`, with `ptrs` the addresses of the blocks. */
  ghost predicate Comes(v: Snapshot, ptrs: map<nat, int>, op: Op, r: Outcome)
  {
    match op
    case Alloc(n, hint) => AllocOutcome(v, n, hint, r)
    case Resize(k, n, hint) => k in ptrs && ResizeOutcome(v, ptrs[k], n, hint, r)
    case _ => r.Ptr?
  }

  /** What `op` makes of such a heap. */
  ghost predicate Follows(v: Snapshot, v': Snapshot, ptrs: map<nat, int>, op: Op, r: Outcome)
  {
    match op
    case Alloc(n, hint) => AllocEffect(v, v', n, hint, r)
    case Drop(k) => k in ptrs && FreeEffect(v, v', ptrs[k] - HEADER)
    case Resize(k, n, hint) => k in ptrs && ResizeEffect(v, v', ptrs[k], n, hint, r)
    case Put(k, off, x) => k in ptrs && v' == v.(mem := Wr(v.mem, ptrs[k] + off, x))
    case Get(_, _) => v' == v
  }

  /** A step of a run: the operation comes to a success, and makes of one heap the next. */
  ghost predicate Goes(v: Snapshot, v': Snapshot, ptrs: map<nat, int>, op: Op)
  {
    exists p :: Comes(v, ptrs, op, Ptr(p)) && Follows(v, v', ptrs, op, Ptr(p))
  }

  /** A moment of a run: the heap is valid and holds exactly the objects of the reference. */
  ghost predicate Moment(v: Snapshot, ptrs: map<nat, int>, w: World)
  {
    Sane(v) && Holds(v.mem, v.g.blocks, ptrs, w)
  }

  /** The moments of a run: one before each operation done, and one at the end. Every operation but one
      that stops the run has come to a success. */
  datatype Trace = Trace(heaps: seq<Snapshot>, places: seq<map<nat, int>>)

  ghost predicate Traced(t: Trace, ops: seq<Op>, done: nat)
  {
    && |t.heaps| == |t.places| == done + 1 && done <= |ops|
    && (forall i :: 0 <= i <= done ==> Moment(t.heaps[i], t.places[i], Replay(ops[..i])))
    && (forall i :: 0 <= i < done ==> Goes(t.heaps[i], t.heaps[i + 1], t.places[i], ops[i]))
    && (forall i :: 0 <= i <= done ==> SameSetting(t.heaps[i], t.heaps[0]))
  }

  ghost predicate SameSetting(v: Snapshot, u: Snapshot)
  {
    v.base == u.base && v.unit == u.unit && v.limit == u.limit
  }

  /** A client program on a heap, with its trace from the heap as it is given. The program stops early
      exactly at an operation that comes to a fatal error in the last heap of the trace; up to there,
      every read delivers what the reference semantics says, and the heap is valid throughout. */
  method Execute(h: Heap, ops: seq<Op>) returns (done: nat, outs: seq<int>, ghost t: Trace, ghost why: Outcome)
    requires h.Valid() && (forall a :: a in h.g.blocks ==> !h.g.blocks[a].kind.Live?) && LegalRun(ops)
    modifies h
    ensures Traced(t, ops, done) && t.heaps[0] == old(h.Now()) && Agree(outs, Replay(ops[..done]).outs)
    ensures done < |ops| ==>
              && !why.Ptr? && Comes(t.heaps[done], t.places[done], ops[done], why)
              && Follows(t.heaps[done], h.Now(), t.places[done], ops[done], why)
    ensures done == |ops| ==> h.Valid() && t.heaps[done] == h.Now()
  {
    hide Holds, LegalRun, Step, Legal, Replay, Heap.Valid, Comes, Follows, Sane, Traced;
    done, outs, why := 0, [], Ptr(0);
    var places: map<nat, int> := map[];
    var next := 0;
    StartHeld(h.mem, h.g.blocks, ops);
    SaneIff(h);
    t := Trace([h.Now()], [places]);
    StartTraced(t, ops);
    while done < |ops|
      invariant done <= |ops| && Running(h, places, Replay(ops[..done])) && Agree(outs, Replay(ops[..done]).outs)
      invariant next == Replay(ops[..done]).next && Traced(t, ops, done)
      invariant |t.heaps| == |t.places| == done + 1 && t.heaps[done] == h.Now() && t.places[done] == places
      invariant t.heaps[0] == old(h.Now())
    {
      ghost var w, v, was := Replay(ops[..done]), h.Now(), places;
      LegalAt(ops, done);
      ReplayStep(ops, done);
      var ok: bool;
      ok, places, outs, next, why := Perform(h, ops[done], places, outs, next, w);
      if !ok {
        return;
      }
      SaneIff(h);
      NextTraced(t, ops, done, h.Now(), places, why.address);
      t := Trace(t.heaps + [h.Now()], t.places + [places]);
      done := done + 1;
    }
  }

  lemma StartTraced(t: Trace, ops: seq<Op>)
    requires |t.heaps| == |t.places| == 1 && Moment(t.heaps[0], t.places[0], Replay(ops[..0]))
    ensures Traced(t, ops, 0)
  {
    hide Moment, Goes, Replay;
  }

  lemma NextTraced(t: Trace, ops: seq<Op>, done: nat, v: Snapshot, places: map<nat, int>, p: int)
    requires Traced(t, ops, done) && done < |ops| && Moment(v, places, Replay(ops[..done + 1]))
    requires Comes(t.heaps[done], t.places[done], ops[done], Ptr(p)) && SameSetting(v, t.heaps[done])
    requires Follows(t.heaps[done], v, t.places[done], ops[done], Ptr(p))
    ensures Traced(Trace(t.heaps + [v], t.places + [places]), ops, done + 1)
  {
    hide Moment, Comes, Follows, Replay;
    var u := Trace(t.heaps + [v], t.places + [places]);
    assert Goes(t.heaps[done], v, t.places[done], ops[done]);
    hide Goes;
    forall i | 0 <= i < done + 1 ensures Goes(u.heaps[i], u.heaps[i + 1], u.places[i], ops[i]) {
      assert u.heaps[i] == t.heaps[i] && u.places[i] == t.places[i];
      if i < done { assert u.heaps[i + 1] == t.heaps[i + 1]; }
    }
    assert SameSetting(t.heaps[done], t.heaps[0]);
  }

  /** The same from zend_mm_startup on: a heap of any power-of-two unit, in memory of any contents. The
      trace begins with an empty heap and the limit set there. */
  method RunFresh(base: int, unit: nat, m: Mem, ops: seq<Op>)
    returns (done: nat, outs: seq<int>, ghost t: Trace, ghost why: Outcome)
    requires base > 0 && base % 8 == 0 && AnyUnit(unit) && LegalRun(ops)
    ensures Traced(t, ops, done) && Agree(outs, Replay(ops[..done]).outs)
    ensures done < |ops| ==> !why.Ptr? && Comes(t.heaps[done], t.places[done], ops[done], why)
    ensures var v := t.heaps[0];
            v.base == base && v.unit == unit && v.limit == HALF_WORD / 2 && v.g.blocks == map[] && v.g.segs == map[]
  {
    hide Heap.Valid, LegalRun, Replay, AnyUnit, Comes, Goes, Moment;
    var h := new Heap(base, unit, m);
    done, outs, t, why := Execute(h, ops);
  }

  lemma StartHeld(m: Mem, b: Blocks, ops: seq<Op>)
    requires forall a :: a in b ==> !b[a].kind.Live?
    ensures Holds(m, b, map[], Replay(ops[..0])) && Replay(ops[..0]) == World(map[], 0, [])
  {
  }

  lemma LegalAt(ops: seq<Op>, i: int)
    requires LegalRun(ops) && 0 <= i < |ops|
    ensures Legal(Replay(ops[..i]), ops[i])
  {
  }

  method Perform(h: Heap, op: Op, ptrs: map<nat, int>, outs: seq<int>, next: nat, ghost w: World)
    returns (ok: bool, ptrs': map<nat, int>, outs': seq<int>, next': nat, ghost r: Outcome)
    requires Running(h, ptrs, w) && Legal(w, op) && Agree(outs, w.outs) && next == w.next
    modifies h
    ensures ok ==> Running(h, ptrs', Step(w, op)) && Agree(outs', Step(w, op).outs) && next' == Step(w, op).next
    ensures (ok <==> r.Ptr?) && (!ok ==> outs' == outs) && Comes(old(h.Now()), ptrs, op, r)
    ensures Follows(old(h.Now()), h.Now(), ptrs, op, r)
    ensures h.limit == old(h.limit)
  {
    hide Holds, Heap.Valid, AllocOutcome, ResizeOutcome, AllocEffect, FreeEffect, ResizeEffect;
    r := Ptr(0);
    ok, ptrs', outs', next' := true, ptrs, outs, next;
    match op
    case Alloc(n, hint) =>
      ok, ptrs', r := DoAlloc(h, n, hint, ptrs, next, w);
      next' := next + 1;
    case Drop(k) => ptrs' := DoFree(h, k, ptrs, w);
    case Resize(k, n, hint) => ok, ptrs', r := DoResize(h, k, n, hint, ptrs, w);
    case Put(k, off, v) => DoPut(h, k, off, v, ptrs, w);
    case Get(k, off) =>
      var v := DoGet(h, k, off, ptrs, w);
      GetStep(h.mem, h.g.blocks, ptrs, w, k, off);
      outs' := outs + [v];
  }

  lemma BlockOf(h: Heap, ptrs: map<nat, int>, w: World, k: nat)
    requires Running(h, ptrs, w) && k in w.objects
    ensures k in ptrs && HeldAt(h.mem, h.g.blocks, ptrs[k], w.objects[k]) && h.IsLive(ptrs[k] - HEADER)
    ensures Roomy(h.g.blocks)
    ensures ptrs[k] > HEADER && w.objects[k].size <= h.g.blocks[ptrs[k] - HEADER].size - HEADER
  {
    RoomyHeap(h);
    assert HeldAt(h.mem, h.g.blocks, ptrs[k], w.objects[k]);
    h.LiveBounds(ptrs[k] - HEADER);
    hide Heap.Valid;
  }

  lemma RoomyHeap(h: Heap)
    requires h.Valid()
    ensures Roomy(h.g.blocks)
  {
    hide Heap.Mid, Heap.Accounts, Coalesced, AnyUnit, Roomy;
  }

  method DoAlloc(h: Heap, n: nat, hint: int, ptrs: map<nat, int>, next: nat, ghost w: World)
    returns (ok: bool, ptrs': map<nat, int>, r: Outcome)
    requires Running(h, ptrs, w) && Legal(w, Alloc(n, hint)) && next == w.next
    modifies h
    ensures h.limit == old(h.limit)
    ensures ok ==> Running(h, ptrs', Step(w, Alloc(n, hint)))
    ensures (ok <==> r.Ptr?) && AllocOutcome(old(h.Now()), n, hint, r) && AllocEffect(old(h.Now()), h.Now(), n, hint, r)
  {
    hide Holds, Heap.Valid, Granted, LiveKept, NoNewLive, Step, AllocOutcome, AllocEffect;
    RoomyHeap(h);
    ghost var m, b := h.mem, h.g.blocks;
    r := h.AllocInt(n, hint);
    ok, ptrs' := r.Ptr?, ptrs;
    if r.Ptr? {
      ptrs' := ptrs[next := r.address];
      AllocStep(m, h.mem, b, h.g.blocks, ptrs, w, r.address, n, hint);
    }
  }

  method DoFree(h: Heap, k: nat, ptrs: map<nat, int>, ghost w: World) returns (ptrs': map<nat, int>)
    requires Running(h, ptrs, w) && Legal(w, Op.Drop(k))
    modifies h
    ensures k in ptrs && FreeEffect(old(h.Now()), h.Now(), ptrs[k] - HEADER)
    ensures h.limit == old(h.limit)
    ensures Running(h, ptrs', Step(w, Op.Drop(k)))
  {
    hide Holds, Heap.Valid, LiveKept, NoNewLive, Step, Roomy, FreeEffect;
    BlockOf(h, ptrs, w, k);
    ghost var m, b := h.mem, h.g.blocks;
    h.FreeInt(ptrs[k]);
    FreeStep(m, h.mem, b, h.g.blocks, ptrs, w, k);
    ptrs' := ptrs - {k};
  }

  method DoResize(h: Heap, k: nat, n: nat, hint: int, ptrs: map<nat, int>, ghost w: World)
    returns (ok: bool, ptrs': map<nat, int>, r: Outcome)
    requires Running(h, ptrs, w) && Legal(w, Resize(k, n, hint))
    modifies h
    ensures h.limit == old(h.limit)
    ensures ok ==> Running(h, ptrs', Step(w, Resize(k, n, hint)))
    ensures (ok <==> r.Ptr?) && k in ptrs && ResizeOutcome(old(h.Now()), ptrs[k], n, hint, r)
    ensures ResizeEffect(old(h.Now()), h.Now(), ptrs[k], n, hint, r)
  {
    hide Holds, Heap.Valid, Resized, LiveKept, NoNewLive, Step, Roomy, Heap.LosesNext, Heap.Lost, ResizeOutcome,
         ResizeEffect;
    BlockOf(h, ptrs, w, k);
    ghost var m, b := h.mem, h.g.blocks;
    r := h.ReallocInt(ptrs[k], n, hint);
    ok, ptrs' := r.Ptr?, ptrs;
    if r.Ptr? {
      ptrs' := ptrs[k := r.address];
      ResizeStep(m, h.mem, b, h.g.blocks, ptrs, w, k, r.address, n, hint);
    }
  }

  method DoPut(h: Heap, k: nat, off: nat, v: int, ptrs: map<nat, int>, ghost w: World)
    requires Running(h, ptrs, w) && Legal(w, Put(k, off, v))
    modifies h
    ensures k in ptrs && h.Now() == old(h.Now()).(mem := Wr(old(h.mem), ptrs[k] + off, v))
    ensures h.limit == old(h.limit)
    ensures Running(h, ptrs, Step(w, Put(k, off, v)))
  {
    hide Holds, Heap.Valid, LiveKept, Step, Roomy, Wr;
    BlockOf(h, ptrs, w, k);
    ghost var m := h.mem;
    h.Store(ptrs[k], off, v);
    PutStep(m, h.mem, h.g.blocks, ptrs, w, k, off, v);
  }

  method DoGet(h: Heap, k: nat, off: nat, ptrs: map<nat, int>, ghost w: World) returns (v: int)
    requires Running(h, ptrs, w) && Legal(w, Get(k, off))
    ensures off in w.objects[k].cells ==> v == w.objects[k].cells[off]
  {
    hide Holds, Heap.Valid;
    BlockOf(h, ptrs, w, k);
    v := Rd(h.mem, ptrs[k] + off);
  }
}
