/** Facts about a whole heap that the operations of the heap class appeal to. */
module HeapFacts {
  import opened Words
  import opened Memory
  import opened Trie
  import opened Index
  import opened Bitmaps
  import opened Tiling
  import opened HeapMemory
  import opened HeapOps
  import opened SegmentOps
  import opened Release
  import opened FreeSearch
  import opened Sums

  ghost predicate Roomy(b: Blocks)
  {
    forall a :: a in b && b[a].kind.Live? ==> 0 <= b[a].kind.req && b[a].kind.req + HEADER <= b[a].size
  }

  /** Segments are multiples of a unit that has room for header and guard. */
  ghost predicate UnitSegs(segs: map<int, int>, unit: nat)
  {
    unit > 0 && forall s :: s in segs ==> segs[s] % unit == 0 && 2 * HEADER <= unit
  }

  ghost predicate Multiple(n: int, unit: nat) { unit > 0 && n % unit == 0 }

  lemma UnitSegsSet(segs: map<int, int>, unit: nat, seg: int, n: int)
    requires UnitSegs(segs, unit) && Multiple(n, unit) && 2 * HEADER <= unit
    ensures UnitSegs(segs[seg := n], unit)
  {
  }

  lemma UnitSegsFewer(segs: map<int, int>, segs': map<int, int>, unit: nat)
    requires UnitSegs(segs, unit) && forall s :: s in segs' ==> s in segs && segs'[s] == segs[s]
    ensures UnitSegs(segs', unit)
  {
  }

  lemma AllLiveKept(m: Mem, m': Mem, b: Blocks)
    requires forall c :: c in b && !b[c].kind.Free? ==> SamePayload(m, m', b, c)
    ensures forall x :: LiveKept(m, m', b, b, x)
  {
    hide SamePayload, LiveKept;
    forall x ensures LiveKept(m, m', b, b, x) { LiveKeptIndex(m, m', b, x); }
  }

  lemma RunSegment(h: int, segs: map<int, int>, b: Blocks, a: int, e: int, c: int)
    requires TileInv(h, segs, b) && a in b && e in b && c in b && a <= c < e && b[a].seg == b[e].seg
    ensures b[c].seg == b[a].seg
  {
    hide TileInv;
    SameSegment(h, segs, b, a, c);
    SameSegment(h, segs, b, e, c);
    Bounds(h, segs, b, a);
    Bounds(h, segs, b, e);
    Bounds(h, segs, b, c);
  }

  lemma RoomyKept(m: Mem, m': Mem, b: Blocks, b': Blocks, x: int)
    requires Roomy(b) && NoNewLive(b, b', x) && LiveKept(m, m', b, b', x)
    requires (x in b' && b'[x].kind.Live? ==> 0 <= b'[x].kind.req && b'[x].kind.req + HEADER <= b'[x].size)
    ensures Roomy(b')
  {
  }

  lemma NotCached(b: Blocks, a: int)
    requires a in b && b[a].kind.Live?
    ensures a !in CachedOf(b) && a in UsedOf(b) && UsedOf(b)[a] == b[a].size
  {
  }

  lemma RekindAt(b: Blocks, a: int, k: Kind)
    requires a in b
    ensures a in Rekind(b, a, k) && Rekind(b, a, k)[a] == b[a].(kind := k)
  {
  }

  lemma WholeReady(b: Blocks, x: Index, a: int, e: int, seg: int)
    requires RunReady(b, x, a, e) && e in b && b[e].kind.Guard? && FreeIn(b, x.size)
    requires forall c :: c in b && b[c].seg == seg ==> c == e || a <= c < e
    ensures forall c :: c in b && b[c].seg == seg ==> c !in x.size && !b[c].kind.Cached?
  {
  }

  lemma SelfKeptAll(m: Mem, b: Blocks)
    ensures forall x :: LiveKept(m, m, b, b, x)
  {
  }

  lemma SelfKept(m: Mem, b: Blocks, x: int)
    ensures LiveKept(m, m, b, b, x) && NoNewLive(b, b, x)
  {
  }

  lemma SegPlace(m: Mem, h: int, g: Body, seg: int)
    requires BodyOk(m, h, g) && seg in g.segs
    ensures seg in g.order && SegLinked(m, h, g.order) && Memory.Distinct(g.order)
  {
    hide TileInv, TagsOutside, CachesRep, CachesListed;
  }

  /** The size word of a segment survives its own unlinking. */
  lemma HeaderSize(m: Mem, h: int, g: Body, k: int)
    requires BodyOk(m, h, g) && 0 <= k < |g.order|
    ensures Rd(Wr(m, SlotAt(h, g.order, k), Rd(m, g.order[k] + 8)), g.order[k]) == Rd(m, g.order[k])
    ensures g.order[k] in g.segs && Rd(m, g.order[k]) == g.segs[g.order[k]]
  {
    hide TagsOutside, CachesRep, CachesListed, SegLinked;
    TileSegs(h, g.segs, g.blocks);
    hide TileInv, SegsInv;
    assert g.order[k] in g.order;
    HeaderNotSlot(h, g.segs, g.order, k, g.order[k]);
  }

  lemma NoNewTrans(b: Blocks, b1: Blocks, b': Blocks, x: int)
    requires NoNewLive(b, b1, x) && NoNewLive(b1, b', x)
    ensures NoNewLive(b, b', x)
  {
  }

  // ---------- flushing ----------

  lemma CacheLists(m: Mem, h: int, g: Body)
    requires BodyOk(m, h, g)
    ensures |g.caches.lists| == NUM_BUCKETS
  {
    hide TileInv, TagsOutside, CachesListed, SegsRep;
  }

  lemma EmptyList(m: Mem, h: int, g: Body, i: int)
    requires BodyOk(m, h, g) && g.caches.loose == -1 && 0 <= i < NUM_BUCKETS
    ensures |g.caches.lists| == NUM_BUCKETS && (Rd(m, CacheSlot(h, i)) == 0 <==> g.caches.lists[i] == [])
  {
    hide TileInv, TagsOutside, CachesListed, SegsRep;
    assert Chain(m, FirstCached(m, h, g.caches, i), g.caches.lists[i]);
  }

  lemma CacheListOf(h: int, g: Body, c: int)
    requires TileInv(h, g.segs, g.blocks) && CachesListed(g.blocks, g.caches) && c in g.blocks
    requires g.blocks[c].kind.Cached?
    ensures exists i :: 0 <= i < NUM_BUCKETS && c in g.caches.lists[i]
  {
    hide TileInv;
    Bounds(h, g.segs, g.blocks, c);
    assert c in g.caches.lists[BucketIndex(g.blocks[c].size)];
  }

  lemma NothingCached(m: Mem, h: int, g: Body)
    requires BodyOk(m, h, g) && g.caches.loose == -1
    requires |g.caches.lists| == NUM_BUCKETS && forall i :: 0 <= i < NUM_BUCKETS ==> g.caches.lists[i] == []
    ensures forall c :: c in g.blocks ==> !g.blocks[c].kind.Cached?
    ensures CachedOf(g.blocks) == map[] && Sum(CachedOf(g.blocks)) == 0
    ensures forall i :: 0 <= i < NUM_BUCKETS ==> Rd(m, CacheSlot(h, i)) == 0
  {
    hide TileInv, TagsOutside, CachesRep, SegsRep;
    forall c | c in g.blocks ensures !g.blocks[c].kind.Cached? {
      if g.blocks[c].kind.Cached? {
        CacheListOf(h, g, c);
        assert false;
      }
    }
    forall i | 0 <= i < NUM_BUCKETS ensures Rd(m, CacheSlot(h, i)) == 0 { EmptyList(m, h, g, i); }
  }

  lemma CachedIn(b: Blocks, a: int)
    requires a in b && b[a].kind.Cached?
    ensures a in CachedOf(b) && CachedOf(b)[a] == b[a].size && a in UsedOf(b) && UsedOf(b)[a] == b[a].size
  {
  }

  /** A cached block that was released was nobody's live block. */
  lemma FlushedLive(m: Mem, m': Mem, b0: Blocks, b1: Blocks, b': Blocks, a: int)
    requires a in b0 && b0[a].kind.Cached? && b1 == Rekind(b0, a, Live(0))
    requires LiveKept(m, m', b1, b', a) && NoNewLive(b1, b', a) && !(a in b' && b'[a].kind.Live?)
    ensures LiveKept(m, m', b0, b', 0) && NoNewLive(b0, b', 0)
  {
    forall c | c in b0 && b0[c].kind.Live? && c != 0
      ensures c in b' && b'[c].kind == b0[c].kind && b'[c].size == b0[c].size && SamePayload(m, m', b0, c)
    {
      assert c in b1 && b1[c] == b0[c];
    }
  }

  /** Free blocks whose segments hold no cached block. */
  ghost predicate AsideOf(b: Blocks, aside: set<int>)
  {
    forall c :: c in aside ==> c in b && b[c].kind.Free? && NoCached(b, b[c].seg)
  }

  ghost predicate NoCached(b: Blocks, seg: int)
  {
    forall d :: d in b && b[d].seg == seg ==> !b[d].kind.Cached?
  }

  ghost predicate Elsewhere(b: Blocks, aside: set<int>, seg: int)
  {
    forall c :: c in aside && c in b ==> b[c].seg != seg
  }

  lemma AsideRekind(b: Blocks, a: int, aside: set<int>)
    requires AsideOf(b, aside) && a in b && b[a].kind.Cached?
    ensures var b' := Rekind(b, a, Live(0)); AsideOf(b', aside) && a in b' && Elsewhere(b', aside, b'[a].seg)
  {
    var b' := Rekind(b, a, Live(0));
    forall c | c in aside ensures c in b' && b'[c].kind.Free? && NoCached(b', b'[c].seg) && b'[c].seg != b'[a].seg {
      assert NoCached(b, b[c].seg);
    }
  }

  lemma AsideCarve(h: int, segs: map<int, int>, b: Blocks, a: int, e: int, aside: set<int>)
    requires TileInv(h, segs, b) && AsideOf(b, aside) && CanCarve(b, a, e, e - a) && Elsewhere(b, aside, b[a].seg)
    ensures forall c :: c in aside ==> !(a <= c < e)
    ensures var b' := Carve(b, a, e, e - a, Free, Free); AsideOf(b', aside) && Elsewhere(b', aside, b[a].seg)
  {
    hide TileInv, Carve;
    var b' := Carve(b, a, e, e - a, Free, Free);
    forall c | c in aside
      ensures !(a <= c < e) && c in b' && b'[c].kind.Free? && b'[c].seg != b[a].seg && NoCached(b', b'[c].seg)
    {
      if a <= c < e { RunSegment(h, segs, b, a, e, c); assert false; }
      CarveAt(b, a, e, e - a, Free, Free, c);
      assert NoCached(b, b[c].seg);
      forall d | d in b' && b'[d].seg == b'[c].seg ensures !b'[d].kind.Cached? { CarveAt(b, a, e, e - a, Free, Free, d); }
    }
  }

  lemma AsideDrop(b: Blocks, seg: int, aside: set<int>)
    requires AsideOf(b, aside) && Elsewhere(b, aside, seg)
    ensures AsideOf(DropSegment(b, seg), aside)
  {
    forall c | c in aside ensures NoCached(DropSegment(b, seg), b[c].seg) { assert NoCached(b, b[c].seg); }
  }

  /** Outside the segment of a carved run, free blocks stay apart. */
  lemma CarveApart(h: int, segs: map<int, int>, b: Blocks, a: int, e: int)
    requires TileInv(h, segs, b) && a in b && e in b && a < e && b[a].seg == b[e].seg && CoalescedBut(b, a, e)
    requires (e - a) % 8 == 0 && e - a >= MIN_BLOCK
    ensures var b' := Carve(b, a, e, e - a, Free, Free);
            forall c {:trigger FreeApart(b', c)} :: c in b' && b'[c].seg != b[a].seg ==> FreeApart(b', c)
  {
    hide TileInv, Carve, CoalescedBut;
    var b' := Carve(b, a, e, e - a, Free, Free);
    CarveAt(b, a, e, e - a, Free, Free, a);
    CarveAt(b, a, e, e - a, Free, Free, e);
    forall c | c in b' && b'[c].seg != b[a].seg ensures FreeApart(b', c) {
      CarveAt(b, a, e, e - a, Free, Free, c);
      Links(h, segs, b, c);
      ApartOutside(b, a, e, c);
      CarveAt(b, a, e, e - a, Free, Free, c + b[c].size);
    }
  }

  lemma FreeNotUsed(b: Blocks, a: int)
    requires a in b && b[a].kind.Free?
    ensures UsedOf(b) - {a} == UsedOf(b)
  {
  }

  lemma DropFreeLive(m0: Mem, m1: Mem, m': Mem, b0: Blocks, b1: Blocks, b': Blocks, a: int, b: int)
    requires a in b1 && b1[a].kind.Free? && LiveKept(m1, m', b1, b', a) && NoNewLive(b1, b', a) && a !in b'
    requires LiveKept(m0, m1, b0, b1, b) && NoNewLive(b0, b1, b) && !(b in b1 && b1[b].kind.Live?)
    ensures LiveKept(m0, m', b0, b', b) && NoNewLive(b0, b', b) && !(b in b' && b'[b].kind.Live?)
  {
    assert LiveKept(m1, m', b1, b', b);
    LiveKeptTrans(m0, m1, m', b0, b1, b', b);
  }

  lemma NotZero(h: int, segs: map<int, int>, b: Blocks)
    requires TileInv(h, segs, b)
    ensures forall c :: c in b ==> c > HEADER
  {
    hide TileInv;
    forall c | c in b ensures c > HEADER {
      Bounds(h, segs, b, c);
      SegmentOutside(h, segs, b, b[c].seg);
    }
  }

  // ---------- allocation ----------

  /** The payload at `p` is new, holds `req` bytes, and no other live block has changed. */
  ghost predicate Granted(m: Mem, m': Mem, b: Blocks, b': Blocks, p: int, req: int)
  {
    var a := p - HEADER;
    && a in b' && b'[a].kind == Live(req) && p % 8 == 0 && p + req <= a + b'[a].size
    && !(a in b && b[a].kind.Live?) && LiveKept(m, m', b, b', a) && NoNewLive(b, b', a)
  }

  lemma BodyTiled(m: Mem, h: int, g: Body, a: int, e: int)
    requires BodyBut(m, h, g, a, e)
    ensures TileInv(h, g.segs, g.blocks)
  {
    hide TileInv, TagsOutside, CachesRep, CachesListed, SegsRep;
  }

  lemma CarveKeepsPayload(m: Mem, a: int, e: int, s: int, t1: int, t2: int)
    requires s >= MIN_BLOCK && (s == e - a || s + MIN_BLOCK <= e - a)
    ensures forall w :: a + HEADER <= w < a + s ==> Rd(CarveWrites(m, a, e, s, t1, t2), w) == Rd(m, w)
  {
    hide CarveWrites;
    forall w | a + HEADER <= w < a + s ensures Rd(CarveWrites(m, a, e, s, t1, t2), w) == Rd(m, w) {
      CarveWord(m, a, e, s, t1, t2, w);
    }
  }

  lemma PayloadWords(m: Mem, m': Mem, b: Blocks, a: int)
    requires (forall x :: LiveKept(m, m', b, b, x)) && a in b && b[a].kind.Live?
    ensures forall w :: a + HEADER <= w < a + b[a].size ==> Rd(m', w) == Rd(m, w)
  {
    assert LiveKept(m, m', b, b, a + 1);
  }

  lemma FoundFree(x: Index, b: Blocks, fb: nat, near: bool, s: nat, a: int)
    requires FoundFit(x, fb, near, s, a) && IndexedBut(x, b, {})
    ensures a in b && b[a].kind.Free? && b[a].size >= s
  {
    IndexedFree(x, b, {});
  }

  /** ZEND_MM_CHECK_BLOCK_LINKAGE passes. */
  ghost predicate Linkage(m: Mem, a: int)
  {
    && PrevTag(m, a + Tag(m, a)) == Tag(m, a)
    && (PrevTag(m, a) != FIRST_MARK ==> Tag(m, a - (PrevTag(m, a) - PrevTag(m, a) % 4)) == PrevTag(m, a))
  }

  lemma LinkageHolds(h: int, segs: map<int, int>, m: Mem, b: Blocks, a: int)
    requires TileInv(h, segs, b) && TagsRep(m, b) && a in b && b[a].kind.Free?
    ensures Linkage(m, a)
  {
    hide TileInv, TagsRep;
    Links(h, segs, b, a);
    TagReads(h, segs, m, b, a);
    TagsAt(m, b, a);
    TagsAt(m, b, a + b[a].size);
    Links(h, segs, b, a + b[a].size);
    if b[a].prev != 0 { TagsAt(m, b, a - b[a].prev); }
  }

  /** A free block is a run of its own. */
  lemma FreeAlone(h: int, segs: map<int, int>, b: Blocks, a: int)
    requires TileInv(h, segs, b) && Coalesced(b) && a in b && b[a].kind.Free?
    ensures var n := a + b[a].size;
            && n in b && b[n].seg == b[a].seg && !b[n].kind.Free? && b[a].size % 8 == 0
            && FreeRun(b, a, n, a) && forall c :: c in b && a <= c < n ==> c == a
  {
    hide TileInv, Coalesced;
    Links(h, segs, b, a);
    Bounds(h, segs, b, a);
    ApartAt(b, a);
    forall c | c in b && a <= c < a + b[a].size ensures c == a { Order(h, segs, b, a, c); }
  }

  lemma GrownTotal(b: Blocks, b': Blocks, a: int, s: int)
    requires a in b && b[a].kind.Free? && UsedOf(b') == (UsedOf(b) - {a})[a := s]
    ensures Sum(UsedOf(b')) == Sum(UsedOf(b)) + s
  {
    FreeNotUsed(b, a);
    SumAdd(UsedOf(b), a, s);
  }

  // ---------- a new segment ----------

  /** The storage can hand out `n` bytes at `seg`. */
  predicate RegionFree(h: int, storage: map<int, int>, seg: int, n: int)
  {
    && seg > 0 && seg % 8 == 0 && n >= 2 * HEADER + MIN_BLOCK && n % 8 == 0 && seg + n <= WORD
    && (seg + n <= h || h + STRUCT_SIZE <= seg)
    && forall s :: s in storage ==> s + storage[s] <= seg || seg + n <= s
  }

  lemma RegionAdds(h: int, segs: map<int, int>, b: Blocks, seg: int, n: int)
    requires TileInv(h, segs, b) && RegionFree(h, segs, seg, n)
    ensures seg !in segs && SegsInv(h, segs[seg := n])
    ensures n >= 2 * HEADER + MIN_BLOCK && n % 8 == 0 && seg % 8 == 0 && (seg + n <= h || h + STRUCT_SIZE <= seg)
  {
    TileSegs(h, segs, b);
    hide TileInv;
  }

  lemma SegmentWritten(m: Mem, h: int, seg: int, n: int)
    requires n >= 2 * HEADER + MIN_BLOCK && (seg + n <= h || h + STRUCT_SIZE <= seg)
    ensures var m1 := Wr(m, seg, n);
            var m2 := Wr(m1, seg + 8, Rd(m1, SegmentsSlot(h)));
            var m' := Wr(Wr(Wr(m2, SegmentsSlot(h), seg), seg + HEADER + 8, FIRST_MARK), seg + n - HEADER, HEADER + 3);
            && SameButRegion(m, m', seg, seg + n, SegmentsSlot(h)) && Rd(m', SegmentsSlot(h)) == seg
            && SegmentSet(m', seg, n, Rd(m, SegmentsSlot(h)))
  {
  }

  lemma AddLive(m: Mem, m': Mem, b: Blocks, seg: int, n: int)
    requires seg + HEADER !in b && seg + n - HEADER !in b && n > 2 * HEADER
    requires forall c :: c in b ==> SamePayload(m, m', b, c)
    ensures var b' := AddSegment(b, seg, n);
            && (forall x :: LiveKept(m, m', b, b', x) && NoNewLive(b, b', x))
            && UsedOf(b') == UsedOf(b) && CachedOf(b') == CachedOf(b)
  {
    hide SamePayload;
  }

  /** The inside of a new segment, as a run. */
  lemma AddedRun(h: int, g: Body, x: Index, seg: int, n: int)
    requires TileInv(h, g.segs, g.blocks) && seg !in g.segs && SegsInv(h, g.segs[seg := n])
    requires FreeIn(g.blocks, x.size)
    ensures var b', a, e := AddSegment(g.blocks, seg, n), seg + HEADER, seg + n - HEADER;
            && a in b' && e in b' && FreeRun(b', a, e, a) && RunReady(b', x, a, e) && b'[a].seg == b'[e].seg
            && !b'[e].kind.Free? && b'[a].kind.Free?
            && b'[a].prev == 0 && b'[e].kind.Guard?
  {
    hide TileInv, SegsInv;
    FreshRegion(h, g.segs, g.blocks, seg, n);
    var b', a, e := AddSegment(g.blocks, seg, n), seg + HEADER, seg + n - HEADER;
    forall c | c in b' && a <= c < e ensures c == a { if c in g.blocks { Bounds(h, g.segs, g.blocks, c); assert false; } }
  }

  // ---------- resizing ----------

  /** The payload at `p` is now at `q` with room for `req` bytes and the same leading contents; the
      old block is gone unless it is the new one, and no other live block has changed. */
  ghost predicate Resized(m: Mem, m': Mem, b: Blocks, b': Blocks, p: int, q: int, req: int)
  {
    var a, c := p - HEADER, q - HEADER;
    && a in b && c in b' && b'[c].kind == Live(req) && q % 8 == 0 && q + req <= c + b'[c].size
    && (c != a ==> !(c in b && b[c].kind.Live?) && !(a in b' && b'[a].kind.Live?))
    && LiveKept(m, m', b, b', a) && NoNewLive(b, b', c)
    && Copied(m, p, m', q, if b[a].size < b'[c].size then b[a].size - HEADER else b'[c].size - HEADER)
  }

  /** A block that was cut or grown where it lies. */
  lemma ResizedInPlace(m0: Mem, m1: Mem, m3: Mem, b0: Blocks, b3: Blocks, a: int, req: int)
    requires a in b0 && a in b3 && b3[a].kind == Live(req) && (a + HEADER) % 8 == 0 && req + HEADER <= b3[a].size
    requires LiveKept(m0, m3, b0, b3, a) && NoNewLive(b0, b3, a)
    requires Copied(m0, a + HEADER, m1, a + HEADER, b0[a].size - HEADER)
    requires forall w :: a + HEADER <= w < a + b3[a].size ==> Rd(m3, w) == Rd(m1, w)
    ensures Resized(m0, m3, b0, b3, a + HEADER, a + HEADER, req)
  {
    hide LiveKept, NoNewLive;
  }

  lemma ChangedTotal(b: Blocks, b': Blocks, a: int, s: int)
    requires a in b && InUse(b[a].kind) && UsedOf(b') == (UsedOf(b) - {a})[a := s]
    ensures Sum(UsedOf(b')) == Sum(UsedOf(b)) - b[a].size + s
  {
    SumRemove(UsedOf(b), a);
    SumAdd(UsedOf(b) - {a}, a, s);
  }

  /** A live block changes only the size it was asked for. */
  lemma RekindLive(m: Mem, h: int, g: Body, x: Index, a: int, k: Kind)
    requires BodyOk(m, h, g) && IndexedBut(x, g.blocks, {}) && Coalesced(g.blocks) && a in g.blocks
    requires g.blocks[a].kind.Live? && k.Live?
    ensures var b' := Rekind(g.blocks, a, k);
            && BodyOk(m, h, g.(blocks := b')) && IndexedBut(x, b', {}) && Coalesced(b')
            && a in b' && b'[a] == g.blocks[a].(kind := k)
            && UsedOf(b') == UsedOf(g.blocks) && CachedOf(b') == CachedOf(g.blocks)
            && LiveKept(m, m, g.blocks, b', a) && NoNewLive(g.blocks, b', a)
  {
    hide TileInv, TagsOutside, CachesRep, SegsRep, Coalesced;
    var b := g.blocks;
    RekindTiled(h, g.segs, b, a, k);
    RekindTags(m, m, b, a, k);
    RekindSums(b, a, k);
    RekindCoalesced(b, a, k);
    NotCached(b, a);
  }

  /** A live block and the free block behind it, if any, as a run. */
  lemma NextRun(h: int, segs: map<int, int>, b: Blocks, u: int)
    requires TileInv(h, segs, b) && Coalesced(b) && u in b && b[u].kind.Live?
    ensures u + b[u].size in b
    ensures var n := u + b[u].size;
            var e := if b[n].kind.Free? then n + b[n].size else n;
            && FreeRun(b, u, e, u) && b[e].seg == b[u].seg && !b[e].kind.Free? && (e - u) % 8 == 0
            && (b[n].kind.Free? ==> n < e)
            && forall c :: c in b && u <= c < e && c != u ==> c == n && b[n].kind.Free?
  {
    hide TileInv, Coalesced;
    var n := u + b[u].size;
    Links(h, segs, b, u);
    Bounds(h, segs, b, u);
    Links(h, segs, b, n);
    Bounds(h, segs, b, n);
    if b[n].kind.Free? { ApartAt(b, n); }
    var e := if b[n].kind.Free? then n + b[n].size else n;
    forall c | c in b && u <= c < e && c != u ensures c == n && b[n].kind.Free? {
      Order(h, segs, b, u, c);
      Order(h, segs, b, n, c);
    }
  }

  lemma WordWritten(m: Mem, a: int, v: int)
    ensures Rd(Wr(m, a, v), a) == v && forall w :: w != a ==> Rd(Wr(m, a, v), w) == Rd(m, w)
  {
  }

  lemma LiveApart(h: int, segs: map<int, int>, b: Blocks, a: int, c: int)
    requires TileInv(h, segs, b) && a in b && c in b && a != c
    ensures a + b[a].size <= c || c + b[c].size <= a
  {
    hide TileInv;
    Order(h, segs, b, a, c);
    Order(h, segs, b, c, a);
  }

  /** Writing into the payload of a live block disturbs nothing else. */
  lemma PayloadWrite(m: Mem, m': Mem, h: int, g: Body, x: Index, a: int)
    requires BodyOk(m, h, g) && IndexInv(m, h, x) && IndexedBut(x, g.blocks, {}) && a in g.blocks
    requires g.blocks[a].kind.Live?
    requires forall w :: !(a + HEADER <= w < a + g.blocks[a].size) ==> Rd(m', w) == Rd(m, w)
    ensures BodyOk(m', h, g) && IndexInv(m', h, x)
    ensures LiveKept(m, m', g.blocks, g.blocks, a)
  {
    hide TileInv, TagsOutside, IndexInv, SegsRep, CachesRep;
    var b := g.blocks;
    IndexedFree(x, b, {});
    OutsideStruct(h, g.segs, b, a);
    Bounds(h, g.segs, b, a);
    forall c, w | c in b && c <= w < c + b[c].size && (c == a ==> w < c + HEADER) ensures Rd(m', w) == Rd(m, w) {
      Order(h, g.segs, b, a, c);
      Order(h, g.segs, b, c, a);
    }
    forall c | c in b ensures Tag(m', c) == Tag(m, c) && PrevTag(m', c) == PrevTag(m, c) { Bounds(h, g.segs, b, c); }
    forall s | s in g.segs ensures Rd(m', s) == Rd(m, s) && Rd(m', s + 8) == Rd(m, s + 8) { HeaderOutside(h, g.segs, b, a, s); }
    forall w | IndexWord(h, x, w) ensures Rd(m', w) == Rd(m, w) {
      if !(h + 664 <= w < h + 2216) {
        var c :| c in x.size && (w == c || c + 16 <= w < c + x.size[c]);
        Bounds(h, g.segs, b, c);
      }
    }
    assert SameIndexWords(m, m', h, x);
    IndexSame(m, m', h, x);
    SameTags(m, m', b);
    SegsRepKept(m, m', h, g.segs, g.order);
    CachesOutside(m, m', h, g, a);
  }

  lemma CachesOutside(m: Mem, m': Mem, h: int, g: Body, a: int)
    requires TileInv(h, g.segs, g.blocks) && CachesListed(g.blocks, g.caches) && CachesRep(m, h, g.caches)
    requires forall i :: 0 <= i < NUM_BUCKETS ==> Rd(m', CacheSlot(h, i)) == Rd(m, CacheSlot(h, i))
    requires a in g.blocks && g.blocks[a].kind.Live?
    requires forall c, w :: c in g.blocks && c <= w < c + g.blocks[c].size && (c == a ==> w < c + HEADER) ==> Rd(m', w) == Rd(m, w)
    ensures CachesRep(m', h, g.caches)
  {
    hide TileInv, Chain;
    forall i | 0 <= i < NUM_BUCKETS ensures Chain(m', FirstCached(m', h, g.caches, i), g.caches.lists[i]) {
      forall c | c in g.caches.lists[i] ensures PrevF(m', c) == PrevF(m, c) { Bounds(h, g.segs, g.blocks, c); }
      ChainKept(m, m', FirstCached(m, h, g.caches, i), g.caches.lists[i]);
    }
  }

  /** After a grant the old block is still there, and it is not the new one. */
  lemma GrantedKept(m: Mem, m': Mem, b: Blocks, b': Blocks, a: int, q: int, req: int)
    requires Granted(m, m', b, b', q, req) && a in b && b[a].kind.Live?
    ensures a in b' && b'[a].kind.Live? && b'[a].size == b[a].size && a != q - HEADER
    ensures forall w :: a + HEADER <= w < a + b[a].size ==> Rd(m', w) == Rd(m, w)
  {
    assert SamePayload(m, m', b, a);
  }

  /** Grant, copy, release: together a resize. */
  lemma CopiedOver(m0: Mem, m1: Mem, m2: Mem, m3: Mem, b0: Blocks, b1: Blocks, b3: Blocks, a: int, q: int, req: int)
    requires Granted(m0, m1, b0, b1, q, req) && a in b0 && b0[a].kind.Live?
    requires LiveKept(m1, m2, b1, b1, q - HEADER)
    requires Copied(m1, a + HEADER, m2, q, b0[a].size - HEADER)
    requires LiveKept(m2, m3, b1, b3, a) && NoNewLive(b1, b3, a) && !(a in b3 && b3[a].kind.Live?)
    requires b0[a].size <= b1[q - HEADER].size
    ensures Resized(m0, m3, b0, b3, a + HEADER, q, req)
  {
    var c := q - HEADER;
    GrantedKept(m0, m1, b0, b1, a, q, req);
    assert c in b1 && b1[c].kind.Live? && c != a;
    assert SamePayload(m2, m3, b1, c);
    forall d | d in b0 && b0[d].kind.Live? && d != a
      ensures d in b3 && b3[d].kind == b0[d].kind && b3[d].size == b0[d].size && SamePayload(m0, m3, b0, d)
    {
      assert d in b1 && SamePayload(m0, m1, b0, d) && SamePayload(m1, m2, b1, d) && SamePayload(m2, m3, b1, d);
    }
    forall w | q <= w < q + b0[a].size - HEADER ensures Rd(m3, w) == Rd(m0, w - q + a + HEADER) {
      assert Rd(m3, w) == Rd(m2, w);
    }
  }

  // ---------- resizing a segment ----------

  /** Behind block `a` there is only a free block, if anything, before the guard; together they are
      too small for `t` bytes. */
  ghost predicate LastRun(b: Blocks, a: int, t: int)
    requires a in b
  {
    var n := a + b[a].size;
    n in b && (var e := if b[n].kind.Free? then n + b[n].size else n; e in b && b[e].kind.Guard? && e - a < t)
  }

  lemma WholeBlock(h: int, segs: map<int, int>, b: Blocks, a: int)
    requires TileInv(h, segs, b) && Coalesced(b) && a in b && b[a].kind.Live? && b[a].prev == 0
    requires a + b[a].size in b
    requires var n := a + b[a].size; var e := if b[n].kind.Free? then n + b[n].size else n; e in b && b[e].kind.Guard?
    ensures var n := a + b[a].size; var e := if b[n].kind.Free? then n + b[n].size else n;
            && b[a].seg == a - HEADER && a - HEADER in segs && segs[a - HEADER] == e - a + 2 * HEADER && b[a].size <= e - a
            && forall c :: c in b && b[c].seg == b[a].seg ==> c == a || c == e || (c == n && b[n].kind.Free?)
  {
    hide TileInv, Coalesced;
    NextRun(h, segs, b, a);
    var n := a + b[a].size;
    var e := if b[n].kind.Free? then n + b[n].size else n;
    Bounds(h, segs, b, n);
    WholeSegment(h, segs, b, a, e);
  }

  lemma AloneInSegment(m: Mem, h: int, g: Body, x: Index, a: int, out: set<int>)
    requires BodyOk(m, h, g) && IndexedBut(x, g.blocks, out) && Coalesced(g.blocks) && a in g.blocks
    requires g.blocks[a].kind.Live? && g.blocks[a].prev == 0
    requires a + g.blocks[a].size in g.blocks
    requires var b := g.blocks;
             var n := a + b[a].size; var e := if b[n].kind.Free? then n + b[n].size else n; e in b && b[e].kind.Guard?
    requires forall c :: c in out <==> c == a + g.blocks[a].size && c in g.blocks && g.blocks[c].kind.Free?
    ensures forall c :: c in g.blocks && g.blocks[c].seg == a - HEADER ==>
              c !in x.size && !g.blocks[c].kind.Cached? && (InUse(g.blocks[c].kind) ==> c == a)
    ensures forall c :: c in out ==> c in g.blocks && g.blocks[c].seg == a - HEADER
    ensures a - HEADER in g.segs && Rd(m, a - HEADER) == g.segs[a - HEADER]
  {
    hide TileInv, TagsOutside, CachesRep, CachesListed, Coalesced;
    WholeBlock(h, g.segs, g.blocks, a);
    IndexedFree(x, g.blocks, out);
    Links(h, g.segs, g.blocks, a);
  }

  /** The slot that holds `seg`, found by walking the list. */
  method SegmentSlot(mem: Mem, base: int, seg: int, ghost order: seq<int>, ghost at: int) returns (p: int)
    requires 0 <= at < |order| && order[at] == seg && Memory.Distinct(order)
    requires forall k {:trigger SlotAt(base, order, k)} :: 0 <= k <= at ==> Rd(mem, SlotAt(base, order, k)) == NextAt(order, k)
    ensures p == SlotAt(base, order, at)
  {
    p := SegmentsSlot(base);
    ghost var k := 0;
    assert Rd(mem, SlotAt(base, order, 0)) == NextAt(order, 0);
    while Rd(mem, p) != seg
      invariant 0 <= k <= at && p == SlotAt(base, order, k) && Rd(mem, p) == NextAt(order, k)
      decreases at - k
    {
      assert Rd(mem, SlotAt(base, order, k + 1)) == NextAt(order, k + 1);
      p := Rd(mem, p) + 8;
      k := k + 1;
    }
  }

  /** What the resized region and the rest of memory hold before the heap writes to them. */
  lemma AdoptFacts(m0: Mem, m: Mem, h: int, g: Body, at: int, seg: int, n: int)
    requires BodyOk(m0, h, g) && 0 <= at < |g.order| && g.order[at] in g.segs && g.segs[g.order[at]] < n
    requires RegionFree(h, g.segs - {g.order[at]}, seg, n) && (seg in g.segs ==> seg == g.order[at])
    requires Copied(m0, g.order[at], m, seg, g.segs[g.order[at]])
    requires forall w :: !(seg <= w < seg + n) ==> Rd(m, w) == Rd(m0, w)
    ensures Rd(m, seg) == g.segs[g.order[at]] && Rd(m, seg + 8) == Rd(m0, g.order[at] + 8)
    ensures PrevTag(m, seg + HEADER) == FIRST_MARK && n >= 2 * HEADER + MIN_BLOCK
    ensures SegsInv(h, (g.segs - {g.order[at]})[seg := n])
    ensures forall k :: 0 <= k <= at ==> !(seg <= SlotAt(h, g.order, k) < seg + n)
    ensures forall k {:trigger SlotAt(h, g.order, k)} :: 0 <= k <= at ==> Rd(m0, SlotAt(h, g.order, k)) == NextAt(g.order, k)
  {
    hide TagsOutside, CachesRep, CachesListed;
    var dead := g.order[at];
    TileSegs(h, g.segs, g.blocks);
    hide TileInv;
    SegmentEnds(h, g.segs, g.blocks, dead);
    TagsAt(m0, g.blocks, dead + HEADER);
    assert Rd(m, seg + 24) == Rd(m0, dead + 24) && Rd(m, seg) == Rd(m0, dead);
    SegsLess(h, g.segs, dead);
    SegsMore(h, g.segs - {dead}, seg, n);
    forall k | 0 <= k <= at ensures !(seg <= SlotAt(h, g.order, k) < seg + n) {
      if k > 0 {
        assert g.order[k - 1] in g.order && g.order[k - 1] != dead;
        assert g.order[k - 1] in g.segs - {dead};
        assert g.segs[g.order[k - 1]] >= 2 * HEADER;
      }
    }
  }

  lemma SegsMore(h: int, segs: map<int, int>, seg: int, n: int)
    requires SegsInv(h, segs) && RegionFree(h, segs, seg, n)
    ensures SegsInv(h, segs[seg := n])
  {
  }

  lemma AdoptWritten(m0: Mem, m: Mem, h: int, g: Body, at: int, seg: int, n: int)
    requires 0 <= at < |g.order| && n >= 2 * HEADER + MIN_BLOCK
    requires Rd(m, seg + 8) == Rd(m0, g.order[at] + 8) && PrevTag(m, seg + HEADER) == FIRST_MARK
    requires forall w :: !(seg <= w < seg + n) ==> Rd(m, w) == Rd(m0, w)
    requires forall k :: 0 <= k <= at ==> !(seg <= SlotAt(h, g.order, k) < seg + n)
    requires forall k {:trigger SlotAt(h, g.order, k)} :: 0 <= k <= at ==> Rd(m0, SlotAt(h, g.order, k)) == NextAt(g.order, k)
    ensures var m1 := Wr(m, seg, n);
            var p := SlotAt(h, g.order, at);
            var m2 := if seg != g.order[at] then Wr(Wr(m1, p, seg), seg + HEADER + 8, FIRST_MARK) else m1;
            var m' := Wr(m2, seg + n - HEADER, HEADER + 3);
            && (forall k {:trigger SlotAt(h, g.order, k)} :: 0 <= k <= at ==> Rd(m1, SlotAt(h, g.order, k)) == NextAt(g.order, k))
            && SameButRegion(m0, m', seg, seg + n, p) && Rd(m', p) == seg && SegmentSet(m', seg, n, Rd(m0, g.order[at] + 8))
            && forall w :: seg + 2 * HEADER <= w < seg + n - HEADER ==> Rd(m', w) == Rd(m, w)
  {
    assert Rd(m0, SlotAt(h, g.order, at)) == NextAt(g.order, at);
  }

  lemma MovedLive(m: Mem, m': Mem, b: Blocks, dead: int, u: int, seg: int, n: int)
    requires forall c :: c in b && b[c].seg == dead ==> !b[c].kind.Cached? && (InUse(b[c].kind) ==> c == u)
    requires u in b && b[u].seg == dead && b[u].kind.Live?
    requires forall c :: c in b && b[c].seg != dead ==> SamePayload(m, m', b, c)
    requires seg + HEADER !in DropSegment(b, dead) && seg + n - HEADER !in DropSegment(b, dead) && n > 2 * HEADER
    ensures var b' := AddSegment(DropSegment(b, dead), seg, n);
            && LiveKept(m, m', b, b', u) && NoNewLive(b, b', u) && UsedOf(b') == UsedOf(b) - {u} && CachedOf(b') == CachedOf(b)
            && !(u in b' && b'[u].kind.Live?)
  {
    hide SamePayload;
    var b' := AddSegment(DropSegment(b, dead), seg, n);
    forall c ensures c in UsedOf(b') <==> c in UsedOf(b) && c != u
             ensures c in CachedOf(b') <==> c in CachedOf(b)
    {
    }
  }

  lemma MovedRun(h: int, g: Body, x: Index, dead: int, seg: int, n: int, out: set<int>)
    requires TileInv(h, g.segs, g.blocks) && Coalesced(g.blocks) && dead in g.segs
    requires RegionFree(h, g.segs - {dead}, seg, n) && IndexedBut(x, g.blocks, out)
    requires forall c :: c in g.blocks && g.blocks[c].seg == dead ==> c !in x.size
    ensures seg + HEADER !in DropSegment(g.blocks, dead) && seg + n - HEADER !in DropSegment(g.blocks, dead)
    ensures n > 2 * HEADER
    ensures seg !in g.segs - {dead}
    ensures var b', a, e := AddSegment(DropSegment(g.blocks, dead), seg, n), seg + HEADER, seg + n - HEADER;
            && a in b' && e in b' && FreeRun(b', a, e, a) && RunReady(b', x, a, e) && b'[a].seg == b'[e].seg
            && !b'[e].kind.Free? && b'[a].kind.Free?
            && CoalescedBut(b', a, e) && (e - a) % 8 == 0
  {
    hide TileInv, Coalesced, CoalescedBut, AddSegment, FreeRun, RunReady, RegionFree;
    var b1, segs1 := DropSegment(g.blocks, dead), g.segs - {dead};
    DropSegmentTiled(h, g.segs, g.blocks, dead);
    forall c | c in g.blocks ensures FreeApart(g.blocks, c) { ApartAt(g.blocks, c); }
    DropCoalesced(g.blocks, dead);
    RegionAdds(h, segs1, b1, seg, n);
    FreshRegion(h, segs1, b1, seg, n);
    IndexedFree(x, g.blocks, out);
    AddedRun(h, g.(segs := segs1, blocks := b1), x, seg, n);
    AddCoalesced(h, segs1, b1, seg, n);
  }

  predicate Resizable(h: int, storage: map<int, int>, seg: int, n: int, hint: int)
  {
    (hint == seg && RegionFree(h, storage - {seg}, seg, n)) || (hint !in storage && RegionFree(h, storage, hint, n))
  }

  /** A free block that is missing from the index makes the index incomplete. */
  lemma Missing(x: Index, b: Blocks, out: set<int>, c: int)
    requires IndexedBut(x, b, out) && c in out && c in b && b[c].kind.Free?
    ensures !IndexedBut(x, b, {})
  {
    IndexedFree(x, b, out);
    assert c in FreeOf(b) - {};
  }

  lemma UsedWithout(b: Blocks, b2: Blocks, a: int)
    requires a in b && b[a].kind.Live? && UsedOf(b2) == UsedOf(b) - {a}
    ensures Sum(UsedOf(b2)) == Sum(UsedOf(b)) - b[a].size
  {
    SumRemove(UsedOf(b), a);
  }

  /** Adopting the region and placing the block in it, together a resize. */
  /** The payload comes along through the resize, the new header and the cut. */
  lemma GrownCopy(m0: Mem, m1: Mem, mr: Mem, m2: Mem, m3: Mem, seg0: int, seg: int, old0: int, orig: int, n: int, s: int)
    requires Copied(m0, seg0 + 2 * HEADER, m1, seg0 + 2 * HEADER, orig - HEADER) && Copied(m1, seg0, mr, seg, old0)
    requires orig + 2 * HEADER <= old0 && orig <= s <= n - 2 * HEADER
    requires forall w :: seg + 2 * HEADER <= w < seg + n - HEADER ==> Rd(m2, w) == Rd(mr, w)
    requires forall w :: seg + 2 * HEADER <= w < seg + HEADER + s ==> Rd(m3, w) == Rd(m2, w)
    ensures Copied(m0, seg0 + 2 * HEADER, m3, seg + 2 * HEADER, orig - HEADER)
  {
    var p, q := seg0 + 2 * HEADER, seg + 2 * HEADER;
    forall w | q <= w < q + (orig - HEADER) ensures Rd(m3, w) == Rd(m0, w - q + p) {
      assert Rd(m3, w) == Rd(mr, w) == Rd(m1, w - seg + seg0);
    }
  }

  lemma GrownLive(m0: Mem, m1: Mem, m2: Mem, m3: Mem, b0: Blocks, b2: Blocks, b3: Blocks, a: int, c: int, req: int)
    requires a in b0 && b0[a].kind.Live? && LiveKept(m0, m1, b0, b0, a)
    requires LiveKept(m1, m2, b0, b2, a) && NoNewLive(b0, b2, a) && !(a in b2 && b2[a].kind.Live?)
    requires c in b2 && b2[c].kind.Free? && LiveKept(m2, m3, b2, b3, c) && NoNewLive(b2, b3, c)
    requires c in b3 && b3[c].kind == Live(req) && c % 8 == 0 && b0[a].size <= b3[c].size && 0 <= req
    requires req + HEADER <= b3[c].size
    requires Copied(m0, a + HEADER, m3, c + HEADER, b0[a].size - HEADER) && Roomy(b0)
    ensures Resized(m0, m3, b0, b3, a + HEADER, c + HEADER, req) && Roomy(b3)
  {
    assert LiveKept(m2, m3, b2, b3, a);
    LiveKeptTrans(m0, m1, m2, b0, b0, b2, a);
    LiveKeptTrans(m0, m2, m3, b0, b2, b3, a);
  }

  lemma OutAside(b: Blocks, a: int, out: set<int>)
    requires forall c :: c in out ==> c in b && b[c].kind.Free? && b[c].seg == a - HEADER
    requires forall c :: c in b && b[c].seg == a - HEADER ==> !b[c].kind.Cached?
    ensures AsideOf(b, out)
  {
    assert NoCached(b, a - HEADER);
  }

  lemma PayloadAligned(h: int, segs: map<int, int>, b: Blocks, a: int)
    requires TileInv(h, segs, b) && a in b
    ensures (a + HEADER) % 8 == 0
  {
    hide TileInv;
    Bounds(h, segs, b, a);
  }

  // ---------- the empty heap ----------

  function NoFree(): Index
  {
    Index(map[], map[], seq(NUM_BUCKETS, _ => []), [], seq(NUM_BUCKETS, _ => Nil))
  }

  ghost predicate CachesEmpty(m: Mem, h: int, n: int)
  {
    forall i :: 0 <= i < n ==> Rd(m, CacheSlot(h, i)) == 0
  }

  ghost predicate BucketsEmpty(m: Mem, h: int, n: int)
  {
    && (forall i :: 0 <= i < n ==> PrevF(m, SmallHead(h, i)) == SmallHead(h, i) && NextF(m, SmallHead(h, i)) == SmallHead(h, i))
    && (forall i :: 0 <= i < n ==> Rd(m, LargeSlot(h, i)) == 0)
  }

  ghost predicate SlotsEmpty(m: Mem, h: int)
  {
    && Rd(m, SegmentsSlot(h)) == 0 && CachesEmpty(m, h, NUM_BUCKETS) && BucketsEmpty(m, h, NUM_BUCKETS)
    && PrevF(m, RestHead(h)) == RestHead(h) && NextF(m, RestHead(h)) == RestHead(h)
  }

  lemma WordsWritten()
    ensures forall m: Mem, a, v, w {:trigger Rd(Wr(m, a, v), w)} :: Rd(Wr(m, a, v), w) == if w == a then v else Rd(m, w)
  {
  }

  lemma EmptyHeap(m: Mem, h: int)
    requires h > 0 && h % 8 == 0 && SlotsEmpty(m, h)
    ensures IndexInv(m, h, NoFree()) && BitsOk(0, 0, NoFree(), true) && CountOk(0, NoFree())
    ensures var g := Body(map[], map[], [], Caches(seq(NUM_BUCKETS, _ => []), -1, 0));
            BodyOk(m, h, g) && Coalesced(g.blocks) && IndexedBut(NoFree(), g.blocks, {})
  {
    var x := NoFree();
    forall i: nat ensures !Bit(0, i) { ZeroHasNoBit(i); }
    forall i | 0 <= i < NUM_BUCKETS ensures Ring(m, [SmallHead(h, i)] + x.smalls[i]) { LoneRing(m, SmallHead(h, i)); }
    LoneRing(m, RestHead(h));
    assert RestLarge(x) == {};
    assert FreeOf(map[]) - {} == map[];
  }

  lemma LoneRing(m: Mem, a: int)
    requires PrevF(m, a) == a && NextF(m, a) == a
    ensures Ring(m, [a] + [])
  {
    assert [a] + [] == [a];
  }

  lemma EmptyAccounts()
    ensures UsedOf(map[]) == map[] && CachedOf(map[]) == map[] && Sum(map[]) == 0 && Roomy(map[])
  {
  }

  /** A block in use is live or cached. */
  lemma UsedSplit(b: Blocks)
    ensures Sum(UsedOf(b)) == Sum(LiveOf(b)) + Sum(CachedOf(b))
  {
    SumParts(UsedOf(b), LiveOf(b), CachedOf(b));
  }

  lemma SegmentsFit(h: int, segs: map<int, int>)
    requires SegsInv(h, segs)
    ensures 0 <= Sum(segs) < WORD
  {
    SumFits(segs, 1, WORD);
    SumNonNegative(segs);
  }

  lemma BlocksFit(h: int, segs: map<int, int>, b: Blocks)
    requires TileInv(h, segs, b)
    ensures 0 <= Sum(UsedOf(b)) < WORD && 0 <= Sum(CachedOf(b)) && 0 <= Sum(LiveOf(b))
  {
    hide TileInv;
    var d := UsedOf(b);
    NotZero(h, segs, b);
    forall c | c in b ensures 0 < b[c].size && c + b[c].size <= WORD {
      Bounds(h, segs, b, c);
      SegmentBelow(h, segs, b, b[c].seg);
    }
    forall j, k | j in d && k in d && j < k ensures j + d[j] <= k { Order(h, segs, b, j, k); }
    SumFits(d, 1, WORD);
    SumNonNegative(d);
    SumNonNegative(CachedOf(b));
    SumNonNegative(LiveOf(b));
  }

  lemma SegmentBelow(h: int, segs: map<int, int>, b: Blocks, s: int)
    requires TileInv(h, segs, b) && s in segs
    ensures s + segs[s] <= WORD
  {
    hide Within, NextLinked, PrevLinked, Ends, NoOverlap;
  }

  // ---------- the memory limit ----------

  /** A block too large for an ordinary segment. */
  predicate Oversize(trueSize: nat, unit: nat) { trueSize > (unit + WORD - 2 * HEADER) % WORD }

  /** The memory limit forbids a segment for a block of `trueSize` bytes, or its size overflows. */
  predicate Refused(trueSize: nat, unit: nat, realNow: int, limit: int)
  {
    unit > 0 && (SegmentSize(trueSize, unit) < trueSize || (realNow + SegmentSize(trueSize, unit)) % WORD > limit)
  }

  /** With a block size below 32 bytes the room for header and guard wraps, and every segment is refused. */
  lemma TinyUnit(trueSize: nat, unit: nat, realNow: int, limit: int)
    requires 0 < unit < 2 * HEADER && MIN_BLOCK <= trueSize < WORD
    ensures Refused(trueSize, unit, realNow, limit)
  {
    assert (unit + WORD - 2 * HEADER) % WORD == unit + WORD - 2 * HEADER;
    if trueSize > unit + WORD - 2 * HEADER {
      assert (trueSize + 2 * HEADER + unit - 1) % WORD == trueSize + 2 * HEADER + unit - 1 - WORD;
    }
  }

  lemma NotRefused(trueSize: nat, unit: nat, realNow: int, limit: int)
    requires !Refused(trueSize, unit, realNow, limit) && unit > 0
    ensures SegmentSize(trueSize, unit) >= trueSize
  {
  }

  lemma WithinLimit(trueSize: nat, unit: nat, realNow: int, limit: int)
    requires !Refused(trueSize, unit, realNow, limit) && unit > 0 && 0 <= realNow
    requires realNow + SegmentSize(trueSize, unit) < WORD
    ensures realNow + SegmentSize(trueSize, unit) <= limit
  {
    hide SegmentSize;
    var x := realNow + SegmentSize(trueSize, unit);
    assert x % WORD == x;
  }

  /** The run from `a` to `e` is cut into a block of `s` bytes and, if anything is left, a free one. */
  ghost predicate CutOff(b: Blocks, b': Blocks, a: int, e: int, s: int, k: Kind)
  {
    a in b && e in b && a < e && b' == Carve(b, a, e, s, k, Free)
  }

  /** The free block `a` is cut to `t` bytes, or taken whole when too little would be left. */
  ghost predicate CutFound(b: Blocks, b': Blocks, a: int, t: int, req: int)
  {
    a in b && var n := b[a].size; CutOff(b, b', a, a + n, if n - t < MIN_BLOCK then n else t, Live(req))
  }

  lemma CutFoundFrom(b: Blocks, b': Blocks, a: int, t: int, s: int, req: int)
    requires a in b && CutOff(b, b', a, a + b[a].size, s, Live(req))
    requires s == if b[a].size - t < MIN_BLOCK then b[a].size else t
    ensures CutFound(b, b', a, t, req)
  {
  }

  /** A new segment of `n` bytes whose first block is live, with what is left behind it free. */
  ghost predicate CutFrom(b: Blocks, b': Blocks, seg: int, n: int, t: int, req: int)
  {
    var a, e := seg + HEADER, seg + n - HEADER;
    a < e && b' == Carve(AddSegment(b, seg, n), a, e, if e - a - t < MIN_BLOCK then e - a else t, Live(req), Free)
  }

  ghost predicate NewSegmentFor(g: Body, g': Body, p: int, hint: int, t: nat, unit: nat, req: int)
  {
    && unit > 0 && p == hint + 2 * HEADER && g'.segs == g.segs[hint := SegmentSize(t, unit)]
    && CutFrom(g.blocks, g'.blocks, hint, SegmentSize(t, unit), t, req)
  }
}
