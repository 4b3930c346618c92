/** What the operations of the heap come to, and what they make of it, said of the heap before and after. */
module HeapEffects {
  import opened Words
  import opened Memory
  import opened Index
  import opened Tiling
  import opened HeapOps
  import opened Release
  import opened HeapFacts
  import opened FreeSearch

  const CACHE_SIZE: int := 64 * 4 * 1024    // ZEND_MM_CACHE_SIZE

  /** What an allocation comes to: a payload address, or one of the two fatal errors. */
  datatype Outcome = Ptr(address: int) | LimitError | MemoryError

  /** The fields of a heap at one moment. */
  datatype Snapshot = Snapshot(
    base: int, unit: nat, mem: Mem, freeBitmap: nat, largeBitmap: nat, restCount: int, limit: nat,
    realSize: int, realPeak: int, size: int, peak: int, cached: int, storage: map<int, int>,
    idx: Index, tidy: bool, g: Body, flushed: int)

  /** The head of the cache list for blocks of `t` bytes, or 0. */
  ghost function CacheHead(v: Snapshot, t: nat): int { Rd(v.mem, CacheSlot(v.base, BucketIndex(t))) }

  ghost predicate CacheHit(v: Snapshot, t: nat) { Small(t) && CacheHead(v, t) != 0 }

  ghost predicate NearLimit(v: Snapshot) { v.realSize >= (v.limit - v.unit) % WORD }

  /** No cached block, and no free block that the search can find: only a new segment will do. */
  ghost predicate MustOpen(v: Snapshot, t: nat)
  {
    !CacheHit(v, t) && NothingFits(v.idx, v.freeBitmap, NearLimit(v), t)
  }

  /** What an allocation comes to: out of memory if the size overflows; else a block, unless a new segment
      is needed and the limit or the storage refuses it. */
  ghost predicate AllocOutcome(v: Snapshot, req: nat, hint: int, r: Outcome)
  {
    if req + HEADER + 7 >= WORD then r == MemoryError
    else if MustOpen(v, TrueSize(req)) then SegmentOutcome(v, TrueSize(req), hint, r)
    else r.Ptr?
  }

  ghost predicate SegmentOutcome(v: Snapshot, t: nat, hint: int, r: Outcome)
  {
    && v.unit > 0
    && (r.LimitError? <==> Refused(t, v.unit, v.realSize, v.limit))
    && (r.MemoryError? <==> !Refused(t, v.unit, v.realSize, v.limit) && !RegionFree(v.base, v.storage, hint, SegmentSize(t, v.unit)))
  }

  /** What a resize of the segment of block `b` comes to. */
  ghost predicate GrowOutcome(v: Snapshot, b: int, t: nat, hint: int, r: Outcome)
  {
    v.unit > 0 && b - HEADER in v.g.segs &&
    var n := SegmentSize(t, v.unit);
    var limited := n < t || (v.realSize + n - v.g.segs[b - HEADER]) % WORD > v.limit;
    && (r.LimitError? <==> limited)
    && (r.MemoryError? <==> !limited && !Resizable(v.base, v.storage, b - HEADER, n, hint))
  }

  lemma GrowOutcomeFrom(v: Snapshot, b: int, t: nat, hint: int, r: Outcome, n: int)
    requires v.unit > 0 && b - HEADER in v.g.segs && n == SegmentSize(t, v.unit)
    requires r.LimitError? <==> n < t || (v.realSize + n - v.g.segs[b - HEADER]) % WORD > v.limit
    requires r.MemoryError? <==> !r.LimitError? && !Resizable(v.base, v.storage, b - HEADER, n, hint)
    ensures GrowOutcome(v, b, t, hint, r)
  {
  }

  /** The block behind `b` is free and large enough for `b` to grow into it. */
  ghost predicate NextSuffices(b: Blocks, a: int, t: int)
  {
    a in b && var n := a + b[a].size; n in b && b[n].kind.Free? && b[a].size + b[n].size >= t
  }

  /** It has to grow, and needs the free block behind it whole. */
  ghost predicate TakesAll(b: Blocks, a: int, t: int)
  {
    NextSuffices(b, a, t) && b[a].size < t && b[a].size + b[a + b[a].size].size - t < MIN_BLOCK
  }

  /** What a resize comes to: out of memory if the size overflows; else a block, unless it has to grow beyond
      the block and what is behind it without a cached block, and then the segment cannot be resized or a
      new block cannot be had. */
  ghost predicate ResizeOutcome(v: Snapshot, p: int, req: nat, hint: int, r: Outcome)
  {
    if p == 0 then AllocOutcome(v, req, hint, r)
    else
      var b, t := p - HEADER, TrueSize(req);
      if req + HEADER + 7 >= WORD then r == MemoryError
      else b in v.g.blocks && if v.g.blocks[b].size >= t then r == Ptr(p) else EnlargeOutcome(v, b, t, req, hint, r)
  }

  ghost predicate EnlargeOutcome(v: Snapshot, b: int, t: nat, req: nat, hint: int, r: Outcome)
    requires b in v.g.blocks
  {
    if CacheHit(v, t) then r.Ptr?
    else if NextSuffices(v.g.blocks, b, t) then r == Ptr(b + HEADER)
    else if v.g.blocks[b].prev == 0 && LastRun(v.g.blocks, b, t) then GrowOutcome(v, b, t, hint, r)
    else AllocOutcome(v, req, hint, r)
  }

  // ---------- accounts ----------

  /** `size` has changed by `d`, and `peak` with it. */
  ghost predicate Charged(v: Snapshot, v': Snapshot, d: int)
  {
    v'.size == v.size + d && v'.peak == if v.peak < v'.size then v'.size else v.peak
  }

  /** `real_size` has changed by `d`, and `real_peak` with it. */
  ghost predicate RealCharged(v: Snapshot, v': Snapshot, d: int)
  {
    v'.realSize == v.realSize + d && v'.realPeak == if v.realPeak < v'.realSize then v'.realSize else v.realPeak
  }

  /** A remainder of `left` bytes at `a`, if large enough to be a block, is on a list: the rest list if asked to. */
  ghost predicate Remainder(v: Snapshot, a: int, left: int, rest: bool)
  {
    left >= MIN_BLOCK ==> a in v.idx.loc && (v.idx.loc[a] == InRest <==> rest)
  }

  /** Blocks and free lists may have changed, and the total in use; nothing else has. */
  ghost predicate OnlyBlocks(v: Snapshot, v': Snapshot)
  {
    v' == v.(mem := v'.mem, freeBitmap := v'.freeBitmap, largeBitmap := v'.largeBitmap, restCount := v'.restCount,
             idx := v'.idx, tidy := v'.tidy, size := v'.size, peak := v'.peak, g := v.g.(blocks := v'.g.blocks))
  }

  // ---------- the cache ----------

  /** The first cached block of `t` bytes is `b`; it is handed out. */
  ghost predicate CacheTaken(v: Snapshot, v': Snapshot, t: int, b: int, req: int)
  {
    var i := BucketIndex(t);
    && b in v.g.blocks && 0 <= i < |v.g.caches.lists| && v.g.caches.lists[i] != []
    && v' == v.(mem := v'.mem, cached := v.cached - t,
                g := v.g.(blocks := Rekind(v.g.blocks, b, Live(req)), caches := Popped(v.g.caches, i)))
  }

  /** Block `b` goes to the front of the cache list of its size. */
  ghost predicate CachePut(v: Snapshot, v': Snapshot, b: int)
  {
    && b in v.g.blocks && 0 <= BucketIndex(v.g.blocks[b].size) < |v.g.caches.lists|
    && v' == v.(mem := v'.mem, cached := v.cached + v.g.blocks[b].size,
                g := v.g.(blocks := Rekind(v.g.blocks, b, Cached), caches := Pushed(v.g.caches, BucketIndex(v.g.blocks[b].size), b)))
  }

  /** Block `b` is cached in exchange for the first cached block `c` of `t` bytes. */
  ghost predicate Swapped(v: Snapshot, v': Snapshot, b: int, c: int, t: int, req: int)
  {
    && b in v.g.blocks && c in v.g.blocks && b != c
    && 0 <= BucketIndex(t) < |v.g.caches.lists| && v.g.caches.lists[BucketIndex(t)] != []
    && 0 <= BucketIndex(v.g.blocks[b].size) < |v.g.caches.lists|
    && v' == v.(mem := v'.mem, cached := v.cached - t + v.g.blocks[b].size,
                g := v.g.(blocks := Rekind(Rekind(v.g.blocks, c, Live(req)), b, Cached),
                          caches := Pushed(Popped(v.g.caches, BucketIndex(t)), BucketIndex(v.g.blocks[b].size), b)))
  }

  /** The cache has been flushed: no block is cached, no live block has changed, no segment is new. */
  ghost predicate FlushedOut(v: Snapshot, v': Snapshot)
  {
    && v'.cached == 0 && v'.flushed == v.flushed + v.cached && v'.size == v.size && v'.peak == v.peak
    && v'.realPeak == v.realPeak && v'.base == v.base && v'.unit == v.unit && v'.limit == v.limit
    && (forall s :: s in v'.g.segs ==> s in v.g.segs && v'.g.segs[s] == v.g.segs[s])
    && (forall c :: c in v'.g.blocks ==> !v'.g.blocks[c].kind.Cached?)
    && LiveKept(v.mem, v'.mem, v.g.blocks, v'.g.blocks, 0) && NoNewLive(v.g.blocks, v'.g.blocks, 0)
  }

  lemma FlushedFrom(v: Snapshot, v': Snapshot)
    requires v'.cached == 0 && v'.flushed == v.flushed + v.cached && v'.size == v.size && v'.peak == v.peak
    requires v'.realPeak == v.realPeak && v'.base == v.base && v'.unit == v.unit && v'.limit == v.limit
    requires forall s :: s in v'.g.segs ==> s in v.g.segs && v'.g.segs[s] == v.g.segs[s]
    requires forall c :: c in v'.g.blocks ==> !v'.g.blocks[c].kind.Cached?
    requires LiveKept(v.mem, v'.mem, v.g.blocks, v'.g.blocks, 0) && NoNewLive(v.g.blocks, v'.g.blocks, 0)
    ensures FlushedOut(v, v')
  {
    hide LiveKept, NoNewLive;
  }

  // ---------- allocation ----------

  /** The free block `b` is cut to `t` bytes, or taken whole; the remainder goes to its free list. */
  ghost predicate FoundTaken(v: Snapshot, v': Snapshot, t: int, b: int, req: int)
  {
    && CutFound(v.g.blocks, v'.g.blocks, b, t, req) && b in v'.g.blocks && Charged(v, v', v'.g.blocks[b].size)
    && OnlyBlocks(v, v') && Remainder(v', b + t, v.g.blocks[b].size - t, false)
  }

  /** A new segment at `hint`, in front of the list, whose first block has the payload `p`. */
  ghost predicate Opened(v: Snapshot, v': Snapshot, t: nat, hint: int, p: int, req: int)
  {
    && NewSegmentFor(v.g, v'.g, p, hint, t, v.unit, req) && p - HEADER in v'.g.blocks
    && v'.g.order == [hint] + v.g.order && v'.g.caches == v.g.caches
    && Charged(v, v', v'.g.blocks[p - HEADER].size) && RealCharged(v, v', SegmentSize(t, v.unit))
    && v'.base == v.base && v'.unit == v.unit && v'.limit == v.limit
    && v'.cached == v.cached && v'.flushed == v.flushed && v'.tidy == v.tidy
    && Remainder(v', p - HEADER + t, SegmentSize(t, v.unit) - 2 * HEADER - t, Oversize(t, v.unit))
  }

  lemma OpenedFrom(v: Snapshot, v': Snapshot, t: nat, hint: int, p: int, req: int)
    requires NewSegmentFor(v.g, v'.g, p, hint, t, v.unit, req) && p - HEADER in v'.g.blocks
    requires v'.g.order == [hint] + v.g.order && v'.g.caches == v.g.caches
    requires Charged(v, v', v'.g.blocks[p - HEADER].size) && RealCharged(v, v', SegmentSize(t, v.unit))
    requires v'.base == v.base && v'.unit == v.unit && v'.limit == v.limit
    requires v'.cached == v.cached && v'.flushed == v.flushed && v'.tidy == v.tidy
    requires Remainder(v', p - HEADER + t, SegmentSize(t, v.unit) - 2 * HEADER - t, Oversize(t, v.unit))
    ensures Opened(v, v', t, hint, p, req)
  {
  }

  lemma ChargedAlike(v: Snapshot, u: Snapshot, v': Snapshot, d: int, e: int)
    requires Charged(u, v', d) && RealCharged(u, v', e)
    requires u.size == v.size && u.peak == v.peak && u.realSize == v.realSize && u.realPeak == v.realPeak
    ensures Charged(v, v', d) && RealCharged(v, v', e)
  {
  }

  /** What an allocation makes of the heap. */
  ghost predicate AllocEffect(v: Snapshot, v': Snapshot, req: nat, hint: int, r: Outcome)
  {
    var t := TrueSize(req);
    if req + HEADER + 7 >= WORD then r == MemoryError && v' == v
    else if CacheHit(v, t) then r == Ptr(CacheHead(v, t) + HEADER) && CacheTaken(v, v', t, CacheHead(v, t), req)
    else if !MustOpen(v, t) then
      && r.Ptr? && FoundFit(v.idx, v.freeBitmap, NearLimit(v), t, r.address - HEADER)
      && FoundTaken(v, v', t, r.address - HEADER, req)
    else
      SegmentOutcome(v, t, hint, r) && if r.Ptr? then Opened(v, v', t, hint, r.address, req) else FlushedOut(v, v')
  }

  // ---------- release ----------

  /** Block `b` and its free neighbours become one free block on its free list, or leave with their segment. */
  ghost predicate ReleasedBody(v: Snapshot, v': Snapshot, b: int)
  {
    b in v.g.blocks &&
    var a, e := RunStart(v.g.blocks, b), RunEnd(v.g.blocks, b);
    && a in v.g.blocks && e in v.g.blocks && a < e && v'.g.caches == v.g.caches
    && if v.g.blocks[a].prev == 0 && v.g.blocks[e].kind.Guard? then Dropped(v, v', a - HEADER) else Merged(v, v', a, e)
  }

  ghost predicate Dropped(v: Snapshot, v': Snapshot, seg: int)
  {
    && seg in v.g.segs && v'.realSize == v.realSize - v.g.segs[seg]
    && v'.g.segs == v.g.segs - {seg} && v'.g.blocks == DropSegment(v.g.blocks, seg)
  }

  ghost predicate Merged(v: Snapshot, v': Snapshot, a: int, e: int)
  {
    && a in v.g.blocks && e in v.g.blocks && a < e && v'.realSize == v.realSize && v'.g.segs == v.g.segs
    && v'.g.blocks == Carve(v.g.blocks, a, e, e - a, Free, Free) && Remainder(v', a, e - a, false)
  }

  lemma ReleasedAlike(v: Snapshot, u: Snapshot, v': Snapshot, b: int)
    requires ReleasedBody(u, v', b) && u == v.(size := u.size)
    ensures ReleasedBody(v, v', b)
  {
  }

  /** What a release of the live block `b` makes of the heap. */
  ghost predicate FreeEffect(v: Snapshot, v': Snapshot, b: int)
  {
    b in v.g.blocks &&
    var s := v.g.blocks[b].size;
    if s < MAX_SMALL && v.cached < CACHE_SIZE then CachePut(v, v', b)
    else
      && ReleasedBody(v, v', b) && v'.size == v.size - s && v'.peak == v.peak && v'.realPeak == v.realPeak
      && v'.base == v.base && v'.unit == v.unit && v'.limit == v.limit
      && v'.cached == v.cached && v'.flushed == v.flushed
  }

  /** It does not depend on what is stored. */
  lemma FreeEffectStored(v: Snapshot, m: Mem, v': Snapshot, b: int)
    requires FreeEffect(v.(mem := m), v', b)
    ensures FreeEffect(v, v', b)
  {
    hide Rekind, Carve, DropSegment;
  }

  // ---------- resizing ----------

  /** How far block `b` and a free block behind it reach. */
  ghost function Reach(b: Blocks, a: int): int
    requires a in b
  {
    var n := a + b[a].size;
    b[a].size + if n in b && b[n].kind.Free? then b[n].size else 0
  }

  /** A smaller size: the tail, with a free block behind it, is given back if it is large enough. */
  ghost predicate ShrunkTo(v: Snapshot, v': Snapshot, b: int, t: int, req: int)
  {
    b in v.g.blocks &&
    var s, reach := v.g.blocks[b].size, Reach(v.g.blocks, b);
    if s - t < MIN_BLOCK then v' == v.(g := v.g.(blocks := Rekind(v.g.blocks, b, Live(req))))
    else
      && CutOff(v.g.blocks, v'.g.blocks, b, b + reach, t, Live(req)) && Charged(v, v', t - s)
      && OnlyBlocks(v, v') && Remainder(v', b + t, reach - t, false)
  }

  /** Growth into the free block behind; what is left of a whole segment goes to the rest list. */
  ghost predicate GrownInto(v: Snapshot, v': Snapshot, b: int, t: int, req: int)
  {
    b in v.g.blocks &&
    var reach := Reach(v.g.blocks, b);
    var s := if reach - t < MIN_BLOCK then reach else t;
    && CutOff(v.g.blocks, v'.g.blocks, b, b + reach, s, Live(req)) && Charged(v, v', s - v.g.blocks[b].size)
    && OnlyBlocks(v, v')
    && Remainder(v', b + t, reach - t, v.g.blocks[b].prev == 0 && v.g.blocks[b + reach].kind.Guard?)
  }

  lemma ShrunkFrom(v: Snapshot, v': Snapshot, b: int, t: int, req: int, reach: int)
    requires b in v.g.blocks && reach == Reach(v.g.blocks, b) && v.g.blocks[b].size - t >= MIN_BLOCK
    requires CutOff(v.g.blocks, v'.g.blocks, b, b + reach, t, Live(req)) && Charged(v, v', t - v.g.blocks[b].size)
    requires OnlyBlocks(v, v') && Remainder(v', b + t, reach - t, false)
    ensures ShrunkTo(v, v', b, t, req)
  {
    hide CutOff, Rekind;
  }

  lemma StaysWhole(v: Snapshot, v': Snapshot, b: int, t: int, req: int)
    requires b in v.g.blocks && v.g.blocks[b].size - t < MIN_BLOCK
    requires v' == v.(g := v.g.(blocks := Rekind(v.g.blocks, b, Live(req))))
    ensures ShrunkTo(v, v', b, t, req)
  {
    hide CutOff, Rekind;
  }

  lemma GrownIntoFrom(v: Snapshot, v': Snapshot, b: int, t: int, req: int, reach: int, s: int, rest: bool)
    requires b in v.g.blocks && reach == Reach(v.g.blocks, b) && b + reach in v.g.blocks
    requires s == if reach - t < MIN_BLOCK then reach else t
    requires CutOff(v.g.blocks, v'.g.blocks, b, b + reach, s, Live(req)) && Charged(v, v', s - v.g.blocks[b].size)
    requires OnlyBlocks(v, v') && Remainder(v', b + t, reach - t, rest)
    requires rest <==> v.g.blocks[b].prev == 0 && v.g.blocks[b + reach].kind.Guard?
    ensures GrownInto(v, v', b, t, req)
  {
    hide Carve;
  }

  /** Where a resized segment lies. */
  ghost function RegrownAt(v: Snapshot, seg: int, n: int, hint: int): int
  {
    if hint == seg && RegionFree(v.base, v.storage - {seg}, seg, n) then seg else hint
  }

  /** The segment of block `b` has been resized, in place or to `hint`; the rest goes to the rest list. */
  ghost predicate Regrew(v: Snapshot, v': Snapshot, b: int, t: nat, hint: int, p: int, req: int)
  {
    v.unit > 0 && RegrewBody(v, v', b, t, SegmentSize(t, v.unit), hint, p, req)
  }

  ghost predicate RegrewBody(v: Snapshot, v': Snapshot, b: int, t: nat, n: int, hint: int, p: int, req: int)
  {
    GrownBody(v, v', b, t, n, RegrownAt(v, b - HEADER, n, hint), p, req)
  }

  /** The segment of block `b` has become the one of `n` bytes at `at`. */
  ghost predicate GrownBody(v: Snapshot, v': Snapshot, b: int, t: nat, n: int, at: int, p: int, req: int)
  {
    b in v.g.blocks && b - HEADER in v.g.segs &&
    var seg := b - HEADER;
    && p == at + 2 * HEADER && p - HEADER in v'.g.blocks
    && v'.g.segs == (v.g.segs - {seg})[at := n] && v'.g.caches == v.g.caches
    && CutFrom(DropSegment(v.g.blocks, seg), v'.g.blocks, at, n, t, req)
    && Charged(v, v', v'.g.blocks[p - HEADER].size - v.g.blocks[b].size) && RealCharged(v, v', n - v.g.segs[seg])
    && v'.base == v.base && v'.unit == v.unit && v'.limit == v.limit
    && v'.cached == v.cached && v'.flushed == v.flushed
    && Remainder(v', p - HEADER + t, n - 2 * HEADER - t, true)
  }

  lemma GrownFrom(v: Snapshot, v': Snapshot, b2: Blocks, b: int, t: nat, n: int, at: int, s: int, req: int)
    requires b in v.g.blocks && b - HEADER in v.g.segs && at + HEADER in v'.g.blocks
    requires v'.g.blocks[at + HEADER].size == s
    requires b2 == AddSegment(DropSegment(v.g.blocks, b - HEADER), at, n)
    requires CutOff(b2, v'.g.blocks, at + HEADER, at + n - HEADER, s, Live(req))
    requires s == if n - 2 * HEADER - t < MIN_BLOCK then n - 2 * HEADER else t
    requires v'.g.segs == (v.g.segs - {b - HEADER})[at := n] && v'.g.caches == v.g.caches
    requires Charged(v, v', s - v.g.blocks[b].size) && RealCharged(v, v', n - v.g.segs[b - HEADER])
    requires v'.base == v.base && v'.unit == v.unit && v'.limit == v.limit
    requires v'.cached == v.cached && v'.flushed == v.flushed
    requires Remainder(v', at + HEADER + t, n - 2 * HEADER - t, true)
    ensures GrownBody(v, v', b, t, n, at, at + 2 * HEADER, req)
  {
    hide Carve, AddSegment, DropSegment;
  }

  lemma GrownAlike(v: Snapshot, u: Snapshot, v': Snapshot, b: int, t: nat, n: int, at: int, p: int, req: int)
    requires GrownBody(u, v', b, t, n, at, p, req) && u == v.(mem := u.mem, storage := u.storage)
    ensures GrownBody(v, v', b, t, n, at, p, req)
  {
    hide CutFrom, DropSegment;
  }

  lemma RegrewAlike(v: Snapshot, u: Snapshot, v': Snapshot, b: int, t: nat, n: int, hint: int, p: int, req: int)
    requires RegrewBody(u, v', b, t, n, hint, p, req)
    requires u == v.(mem := u.mem, freeBitmap := u.freeBitmap, largeBitmap := u.largeBitmap, restCount := u.restCount,
                     idx := u.idx, tidy := u.tidy)
    ensures RegrewBody(v, v', b, t, n, hint, p, req)
  {
    hide RegionFree, CutFrom, DropSegment;
  }

  /** A new block and the release of the old one. */
  ghost predicate MovedTo(v: Snapshot, v': Snapshot, b: int, req: nat, hint: int, r: Outcome)
  {
    if r.Ptr? then exists u :: AllocEffect(v, u, req, hint, r) && FreeEffect(u, v', b)
    else AllocEffect(v, v', req, hint, r)
  }

  /** What a resize makes of the heap. */
  ghost predicate ResizeEffect(v: Snapshot, v': Snapshot, p: int, req: nat, hint: int, r: Outcome)
  {
    if p == 0 then AllocEffect(v, v', req, hint, r)
    else
      var b, t := p - HEADER, TrueSize(req);
      if req + HEADER + 7 >= WORD then r == MemoryError && v' == v
      else b in v.g.blocks && if v.g.blocks[b].size >= t then r == Ptr(p) && ShrunkTo(v, v', b, t, req)
      else EnlargeEffect(v, v', b, t, req, hint, r)
  }

  ghost predicate EnlargeEffect(v: Snapshot, v': Snapshot, b: int, t: nat, req: nat, hint: int, r: Outcome)
    requires b in v.g.blocks
  {
    if CacheHit(v, t) then r == Ptr(CacheHead(v, t) + HEADER) && Swapped(v, v', b, CacheHead(v, t), t, req)
    else if NextSuffices(v.g.blocks, b, t) then r == Ptr(b + HEADER) && GrownInto(v, v', b, t, req)
    else if v.g.blocks[b].prev == 0 && LastRun(v.g.blocks, b, t) then
      GrowOutcome(v, b, t, hint, r) && if r.Ptr? then Regrew(v, v', b, t, hint, r.address, req) else FlushedOut(v, v')
    else MovedTo(v, v', b, req, hint, r)
  }
}
