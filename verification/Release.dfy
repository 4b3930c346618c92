/** Facts behind releasing a block: what its neighbours are, and what carving them together keeps. */
module Release {
  import opened Words
  import opened Memory
  import opened Index
  import opened Tiling
  import opened HeapMemory
  import opened HeapOps
  import opened SegmentOps

  /** Live blocks other than `x` keep their place, size, requested size and payload. */
  ghost predicate LiveKept(m: Mem, m': Mem, b: Blocks, b': Blocks, x: int)
  {
    forall c {:trigger c in b} :: c in b && b[c].kind.Live? && c != x ==>
      c in b' && b'[c].kind == b[c].kind && b'[c].size == b[c].size && SamePayload(m, m', b, c)
  }

  /** No block other than `x` has become live. */
  ghost predicate NoNewLive(b: Blocks, b': Blocks, x: int)
  {
    forall c {:trigger c in b'} :: c in b' && b'[c].kind.Live? && c != x ==> c in b && b[c].kind.Live?
  }

  lemma LiveKeptTrans(m: Mem, m1: Mem, m': Mem, b: Blocks, b1: Blocks, b': Blocks, x: int)
    requires LiveKept(m, m1, b, b1, x) && LiveKept(m1, m', b1, b', x)
    ensures LiveKept(m, m', b, b', x)
  {
    forall c | c in b && b[c].kind.Live? && c != x ensures SamePayload(m, m', b, c) {
      forall w | c + HEADER <= w < c + b[c].size ensures Rd(m', w) == Rd(m, w) { }
    }
  }

  lemma LiveKeptIndex(m: Mem, m': Mem, b: Blocks, x: int)
    requires forall c :: c in b && !b[c].kind.Free? ==> SamePayload(m, m', b, c)
    ensures LiveKept(m, m', b, b, x) && NoNewLive(b, b, x)
  {
    hide SamePayload;
  }

  /** In the run from `a` to `e`, `u` is the only block that is not free. */
  ghost predicate FreeRun(b: Blocks, a: int, e: int, u: int)
  {
    && a in b && e in b && a <= u < e && u in b && !b[u].kind.Guard? && !b[u].kind.Cached?
    && forall c :: c in b && a <= c < e && c != u ==> b[c].kind.Free?
  }

  lemma RunOfFree(b: Blocks, x: Index, a: int, e: int, u: int, out: set<int>)
    requires FreeRun(b, a, e, u) && IndexedBut(x, b, out) && forall c :: c in b && a <= c < e && c != u ==> c in out
    requires b[u].kind.Live? || u in out
    ensures RunReady(b, x, a, e)
  {
    IndexedFree(x, b, out);
  }

  lemma CarveLive(g: Body, m: Mem, m': Mem, a: int, e: int, s: int, k1: Kind, k2: Kind, u: int)
    requires CanCarve(g.blocks, a, e, s) && FreeRun(g.blocks, a, e, u) && !k2.Live?
    requires forall c :: c in g.blocks && !(a <= c < e) ==> SamePayload(m, m', g.blocks, c)
    ensures LiveKept(m, m', g.blocks, Carve(g.blocks, a, e, s, k1, k2), u)
    ensures NoNewLive(g.blocks, Carve(g.blocks, a, e, s, k1, k2), a)
    ensures !k1.Live? ==> NoNewLive(g.blocks, Carve(g.blocks, a, e, s, k1, k2), u)
    ensures u != a && !k1.Live? ==>
              !(u in Carve(g.blocks, a, e, s, k1, k2) && Carve(g.blocks, a, e, s, k1, k2)[u].kind.Live?)
  {
    hide Carve, SamePayload;
    var b, b' := g.blocks, Carve(g.blocks, a, e, s, k1, k2);
    forall c ensures c in b && b[c].kind.Live? && c != u ==> c in b' && b'[c].kind == b[c].kind && b'[c].size == b[c].size && !(a <= c < e)
             ensures c in b' && b'[c].kind.Live? && c != a ==> c in b && b[c].kind.Live? && c != u
    {
      CarveAt(b, a, e, s, k1, k2, c);
    }
    CarveAt(b, a, e, s, k1, k2, a);
  }

  lemma CarveUsed(b: Blocks, a: int, e: int, s: int, k1: Kind, u: int)
    requires CanCarve(b, a, e, s) && FreeRun(b, a, e, u)
    ensures UsedOf(Carve(b, a, e, s, k1, Free)) == if InUse(k1) then (UsedOf(b) - {u})[a := s] else UsedOf(b) - {u}
    ensures !k1.Cached? ==> CachedOf(Carve(b, a, e, s, k1, Free)) == CachedOf(b)
  {
    hide Carve;
    var b' := Carve(b, a, e, s, k1, Free);
    forall c ensures c in UsedOf(b) - {u} && c != a <==> c in UsedOf(b') && c != a
             ensures c in UsedOf(b') && c != a ==> c in b && b'[c].size == b[c].size
             ensures !k1.Cached? ==> (c in CachedOf(b') <==> c in CachedOf(b))
             ensures !k1.Cached? && c in CachedOf(b') ==> b'[c].size == b[c].size
    {
      CarveAt(b, a, e, s, k1, Free, c);
    }
    CarveAt(b, a, e, s, k1, Free, a);
    assert a !in UsedOf(b) - {u};
  }

  // ---------- the neighbourhood of a block in use ----------

  /** Behind a block in use: the end of the run, which is not free. */
  lemma BlockBehind(h: int, segs: map<int, int>, b: Blocks, u: int, e: int)
    requires TileInv(h, segs, b) && Coalesced(b) && u in b && InUse(b[u].kind)
    requires var n := u + b[u].size;
             e == if n in b && b[n].kind.Free? then n + b[n].size else n
    ensures var n := u + b[u].size;
            && n in b && e in b && u < n <= e && b[e].seg == b[u].seg && !b[e].kind.Free? && (e - u) % 8 == 0
            && e - u >= MIN_BLOCK
            && (n < e ==> b[n].kind.Free? && e == n + b[n].size)
  {
    hide TileInv, Coalesced;
    var n := u + b[u].size;
    Links(h, segs, b, u);
    Bounds(h, segs, b, u);
    if b[n].kind.Free? {
      Links(h, segs, b, n);
      Bounds(h, segs, b, n);
      ApartAt(b, n);
    }
  }

  /** In front of it: the start of the run, which has no free block before it. */
  lemma BlockBefore(h: int, segs: map<int, int>, b: Blocks, u: int, a: int)
    requires TileInv(h, segs, b) && Coalesced(b) && u in b && InUse(b[u].kind)
    requires a == if b[u].prev != 0 && u - b[u].prev in b && b[u - b[u].prev].kind.Free? then u - b[u].prev else u
    ensures a in b && a <= u && b[a].seg == b[u].seg && (u - a) % 8 == 0
    ensures a < u ==> b[a].kind.Free? && u == a + b[a].size
    ensures b[a].prev != 0 && a - b[a].prev in b ==> !b[a - b[a].prev].kind.Free?
  {
    hide TileInv, Coalesced;
    Links(h, segs, b, u);
    if a != u {
      Links(h, segs, b, a);
      Bounds(h, segs, b, a);
      if b[a].prev != 0 {
        var q := a - b[a].prev;
        Links(h, segs, b, q);
        ApartAt(b, q);
      }
    }
  }

  ghost predicate FreeBefore(b: Blocks, u: int)
    requires u in b
  {
    b[u].prev != 0 && u - b[u].prev in b && b[u - b[u].prev].kind.Free?
  }

  /** Where the run of a block and its free neighbours begins and ends. */
  ghost function RunStart(b: Blocks, u: int): int
    requires u in b
  {
    if FreeBefore(b, u) then u - b[u].prev else u
  }

  ghost function RunEnd(b: Blocks, u: int): int
    requires u in b
  {
    var n := u + b[u].size;
    if n in b && b[n].kind.Free? then n + b[n].size else n
  }

  lemma BeforeEnds(h: int, segs: map<int, int>, b: Blocks, u: int)
    requires TileInv(h, segs, b) && u in b && FreeBefore(b, u)
    ensures b[u - b[u].prev].size == b[u].prev
  {
    hide TileInv;
    Links(h, segs, b, u);
  }

  /** The run that a released block forms with its free neighbours. */
  lemma Neighbourhood(h: int, segs: map<int, int>, b: Blocks, u: int, a: int, e: int)
    requires TileInv(h, segs, b) && Coalesced(b) && u in b && InUse(b[u].kind)
    requires e == RunEnd(b, u) && a == RunStart(b, u)
    ensures a in b && e in b && a <= u < e && b[a].seg == b[u].seg && b[e].seg == b[u].seg
    ensures forall c :: c in b && a <= c < e && c != u ==> b[c].kind.Free? && (c == a || c == u + b[u].size)
    ensures !b[e].kind.Free? && (b[a].prev != 0 && a - b[a].prev in b ==> !b[a - b[a].prev].kind.Free?)
    ensures e - a >= MIN_BLOCK && (e - a) % 8 == 0
  {
    hide TileInv, Coalesced;
    BlockBehind(h, segs, b, u, e);
    BlockBefore(h, segs, b, u, a);
    forall c | c in b && a <= c < e && c != u ensures b[c].kind.Free? && (c == a || c == u + b[u].size) {
      OneOfThree(h, segs, b, u, a, e, c);
    }
  }

  lemma OneOfThree(h: int, segs: map<int, int>, b: Blocks, u: int, a: int, e: int, c: int)
    requires TileInv(h, segs, b) && u in b && a in b && c in b && a <= u && a <= c < e && c != u
    requires (a < u ==> u == a + b[a].size)
    requires (u + b[u].size < e ==> u + b[u].size in b && e == u + b[u].size + b[u + b[u].size].size)
    requires u + b[u].size <= e
    ensures (c == a && a < u) || (c == u + b[u].size && u + b[u].size < e)
  {
    hide TileInv;
    var n := u + b[u].size;
    Order(h, segs, b, a, c);
    Order(h, segs, b, u, c);
    if n < c && n < e { Order(h, segs, b, n, c); }
  }

  /** A first block followed by a guard is its whole segment. */
  lemma WholeSegment(h: int, segs: map<int, int>, b: Blocks, a: int, e: int)
    requires TileInv(h, segs, b) && a in b && e in b && a < e && b[a].seg == b[e].seg
    requires b[a].prev == 0 && b[e].kind.Guard?
    ensures a == b[a].seg + HEADER && b[a].seg in segs && e == b[a].seg + segs[b[a].seg] - HEADER
    ensures forall c :: c in b && b[c].seg == b[a].seg ==> c == e || a <= c < e
  {
    hide TileInv;
    Links(h, segs, b, a);
    Bounds(h, segs, b, e);
    forall c | c in b && b[c].seg == b[a].seg ensures c == e || a <= c < e {
      Bounds(h, segs, b, c);
    }
  }

  lemma DropLive(g: Body, m: Mem, m': Mem, seg: int, u: int)
    requires forall c :: c in g.blocks && g.blocks[c].seg == seg && InUse(g.blocks[c].kind) ==> c == u
    requires forall c :: c in g.blocks && g.blocks[c].seg != seg ==> SamePayload(m, m', g.blocks, c)
    requires u in g.blocks && g.blocks[u].seg == seg && !g.blocks[u].kind.Cached?
    ensures LiveKept(m, m', g.blocks, DropSegment(g.blocks, seg), u)
    ensures NoNewLive(g.blocks, DropSegment(g.blocks, seg), u) && u !in DropSegment(g.blocks, seg)
    ensures UsedOf(DropSegment(g.blocks, seg)) == UsedOf(g.blocks) - {u}
    ensures CachedOf(DropSegment(g.blocks, seg)) == CachedOf(g.blocks)
  {
    hide SamePayload;
    var b' := DropSegment(g.blocks, seg);
    forall c ensures c in UsedOf(b') <==> c in UsedOf(g.blocks) && c != u
             ensures c in CachedOf(b') <==> c in CachedOf(g.blocks)
    {
    }
  }

  // ---------- changing only the kind of a block ----------

  ghost function Rekind(b: Blocks, a: int, k: Kind): Blocks
    requires a in b
  {
    b[a := b[a].(kind := k)]
  }

  lemma RekindTiled(h: int, segs: map<int, int>, b: Blocks, a: int, k: Kind)
    requires TileInv(h, segs, b) && a in b && InUse(b[a].kind) && InUse(k)
    ensures TileInv(h, segs, Rekind(b, a, k))
  {
    hide TileInv, SegsInv;
    TileSegs(h, segs, b);
    var b' := Rekind(b, a, k);
    RekindLinks(h, segs, b, a, k);
    hide Within, NextLinked, PrevLinked;
    forall t | t in segs ensures EndBlocks(segs, b', t) { SegmentEnds(h, segs, b, t); }
    forall c, d | c in b' && d in b' && c < d ensures c + b'[c].size <= d { Order(h, segs, b, c, d); }
    TileParts(h, segs, b');
  }

  lemma RekindLinks(h: int, segs: map<int, int>, b: Blocks, a: int, k: Kind)
    requires TileInv(h, segs, b) && a in b && InUse(b[a].kind) && InUse(k)
    ensures var b' := Rekind(b, a, k);
            && (forall c {:trigger Within(segs, b', c)} :: c in b' ==> Within(segs, b', c))
            && (forall c {:trigger NextLinked(b', c)} :: c in b' ==> NextLinked(b', c))
            && (forall c {:trigger PrevLinked(b', c)} :: c in b' ==> PrevLinked(b', c))
  {
    hide TileInv;
    var b' := Rekind(b, a, k);
    forall c {:trigger Within(segs, b', c)} | c in b' ensures Within(segs, b', c) { Bounds(h, segs, b, c); }
    forall c {:trigger NextLinked(b', c)} | c in b' ensures NextLinked(b', c) { Links(h, segs, b, c); }
    forall c {:trigger PrevLinked(b', c)} | c in b' ensures PrevLinked(b', c) { Links(h, segs, b, c); }
  }

  lemma RekindCoalesced(b: Blocks, a: int, k: Kind)
    requires Coalesced(b) && a in b && InUse(b[a].kind) && InUse(k)
    ensures Coalesced(Rekind(b, a, k))
  {
    hide Coalesced;
    var b' := Rekind(b, a, k);
    forall c | c in b' ensures FreeApart(b', c) { ApartAt(b, c); }
    AllApart(b');
  }

  lemma RekindTags(m: Mem, m': Mem, b: Blocks, a: int, k: Kind)
    requires TagsRep(m, b) && a in b && InUse(b[a].kind) && InUse(k)
    requires forall c :: c in b ==> Tag(m', c) == Tag(m, c) && PrevTag(m', c) == PrevTag(m, c)
    ensures TagsRep(m', Rekind(b, a, k))
  {
    var b' := Rekind(b, a, k);
    forall c | c in b' ensures TagRight(m', b', c) && PrevRight(m', b', c) { TagsAt(m, b, c); }
  }

  lemma RekindSums(b: Blocks, a: int, k: Kind)
    requires a in b && InUse(b[a].kind) && InUse(k)
    ensures UsedOf(Rekind(b, a, k)) == UsedOf(b)
    ensures CachedOf(Rekind(b, a, k)) == if k.Cached? then CachedOf(b)[a := b[a].size] else CachedOf(b) - {a}
    ensures FreeOf(Rekind(b, a, k)) == FreeOf(b)
  {
  }

  // ---------- putting a free block back into the index ----------

  lemma SubSpread(h: int, d: map<int, int>, d': map<int, int>)
    requires Spread(h, d) && forall a :: a in d' ==> a in d && d'[a] == d[a]
    ensures Spread(h, d')
  {
  }

  /** A free block that is out of the index may be added to it. */
  lemma ReadyToAdd(m: Mem, h: int, g: Body, x: Index, b: int, out: set<int>)
    requires BodyOk(m, h, g) && IndexedBut(x, g.blocks, out) && b in out && b in g.blocks && g.blocks[b].kind.Free?
    ensures var s := g.blocks[b].size;
            && b !in x.size && Spread(h, x.size[b := s]) && Tag(m, b) == s && MIN_BLOCK <= s < WORD
            && x.size[b := s] == FreeOf(g.blocks) - (out - {b}) && FreeIn(g.blocks, x.size[b := s])
  {
    hide TileInv, CachesRep, CachesListed, SegsRep, Spread;
    var s := g.blocks[b].size;
    IndexedFree(x, g.blocks, out);
    assert x.size[b := s] == FreeOf(g.blocks) - (out - {b});
    TagsAt(m, g.blocks, b);
    Bounds(h, g.segs, g.blocks, b);
    TilesSpread(h, g.segs, g.blocks);
    SubSpread(h, FreeOf(g.blocks), x.size[b := s]);
    SizeBound(h, FreeOf(g.blocks), b);
  }

  lemma SizeBound(h: int, d: map<int, int>, b: int)
    requires Spread(h, d) && b in d
    ensures d[b] < WORD
  {
  }

  // ---------- the cache ----------

  function Pushed(caches: Caches, i: int, a: int): Caches
    requires 0 <= i < |caches.lists|
  {
    caches.(lists := caches.lists[i := [a] + caches.lists[i]])
  }

  function Popped(caches: Caches, i: int): Caches
    requires 0 <= i < |caches.lists| && caches.lists[i] != []
  {
    caches.(lists := caches.lists[i := caches.lists[i][1..]])
  }

  /** The block in front of a cache list. */
  lemma PushCached(m: Mem, h: int, g: Body, x: Index, a: int)
    requires BodyOk(m, h, g) && IndexInv(m, h, x) && IndexedBut(x, g.blocks, {}) && a in g.blocks
    requires g.blocks[a].kind.Live?
    requires g.caches.loose == -1
    requires g.blocks[a].size < MAX_SMALL
    ensures 0 <= BucketIndex(g.blocks[a].size) < NUM_BUCKETS && |g.caches.lists| == NUM_BUCKETS
    ensures var i := BucketIndex(g.blocks[a].size);
            var m' := Wr(Wr(m, a + 16, Rd(m, CacheSlot(h, i))), CacheSlot(h, i), a);
            var g' := g.(blocks := Rekind(g.blocks, a, Cached), caches := Pushed(g.caches, i, a));
            && BodyOk(m', h, g') && IndexInv(m', h, x) && IndexedBut(x, g'.blocks, {})
            && LiveKept(m, m', g.blocks, g'.blocks, a) && NoNewLive(g.blocks, g'.blocks, a)
  {
    hide TileInv, TagsOutside, IndexInv, SegsRep, Chain, SamePayload;
    var b := g.blocks;
    Bounds(h, g.segs, b, a);
    var i := BucketIndex(b[a].size);
    var m' := Wr(Wr(m, a + 16, Rd(m, CacheSlot(h, i))), CacheSlot(h, i), a);
    CacheWrites(m, m', h, g, x, a, i);
    RekindTiled(h, g.segs, b, a, Cached);
    RekindTags(m, m', b, a, Cached);
    RekindSums(b, a, Cached);
    SegsRepKept(m, m', h, g.segs, g.order);
    SegmentOutside(h, g.segs, b, b[a].seg);
    forall c | c in b && b[c].kind.Cached? ensures PrevF(m', c) == PrevF(m, c) {
      Bounds(h, g.segs, b, c);
      LinkKept(m, m', b, c);
    }
    PushChains(m, m', h, g, a, i);
    PushListed(b, a, i, g.caches);
    assert LiveKept(m, m', b, Rekind(b, a, Cached), a);
  }

  lemma LinkKept(m: Mem, m': Mem, b: Blocks, c: int)
    requires c in b && b[c].size >= MIN_BLOCK && SamePayload(m, m', b, c)
    ensures PrevF(m', c) == PrevF(m, c)
  {
  }

  /** The words that a cache operation touches: one cache head and the link word of one block. */
  lemma CacheWrites(m: Mem, m': Mem, h: int, g: Body, x: Index, a: int, i: int)
    requires BodyOk(m, h, g) && IndexInv(m, h, x) && IndexedBut(x, g.blocks, {}) && a in g.blocks
    requires InUse(g.blocks[a].kind)
    requires 0 <= i < NUM_BUCKETS
    requires forall w :: w != a + 16 && w != CacheSlot(h, i) ==> Rd(m', w) == Rd(m, w)
    ensures IndexInv(m', h, x)
    ensures forall c :: c in g.blocks ==> Tag(m', c) == Tag(m, c) && PrevTag(m', c) == PrevTag(m, c)
    ensures forall c :: c in g.blocks && c != a ==> SamePayload(m, m', g.blocks, c)
    ensures Rd(m', SegmentsSlot(h)) == Rd(m, SegmentsSlot(h))
    ensures forall s :: s in g.segs ==> Rd(m', s) == Rd(m, s) && Rd(m', s + 8) == Rd(m, s + 8)
    ensures forall j :: 0 <= j < NUM_BUCKETS ==> CacheSlot(h, j) != a + 16
  {
    hide TileInv, TagsOutside, IndexInv, SegsRep, CachesRep, CachesListed;
    var b := g.blocks;
    IndexedFree(x, b, {});
    Bounds(h, g.segs, b, a);
    OutsideStruct(h, g.segs, b, a);
    forall c, w | c in b && c <= w < c + b[c].size && (c == a ==> w < c + HEADER) ensures Rd(m', w) == Rd(m, w) {
      OutsideStruct(h, g.segs, b, c);
      Order(h, g.segs, b, a, c);
      Order(h, g.segs, b, c, a);
    }
    forall c | c in b ensures Tag(m', c) == Tag(m, c) && PrevTag(m', c) == PrevTag(m, c) { Bounds(h, g.segs, b, c); }
    forall s | s in g.segs ensures Rd(m', s) == Rd(m, s) && Rd(m', s + 8) == Rd(m, s + 8) {
      HeaderOutside(h, g.segs, b, a, s);
      SegmentOutside(h, g.segs, b, s);
    }
    forall w | IndexWord(h, x, w) ensures Rd(m', w) == Rd(m, w) {
      if !(h + 664 <= w < h + 2216) {
        var c :| c in x.size && (w == c || c + 16 <= w < c + x.size[c]);
        Bounds(h, g.segs, b, c);
      }
    }
    assert SameIndexWords(m, m', h, x);
    IndexSame(m, m', h, x);
  }

  lemma SegmentOutside(h: int, segs: map<int, int>, b: Blocks, s: int)
    requires TileInv(h, segs, b) && s in segs
    ensures s + segs[s] <= h || h + STRUCT_SIZE <= s
    ensures segs[s] >= 2 * HEADER + MIN_BLOCK && s > 0
  {
    hide Within, NextLinked, PrevLinked, Ends, NoOverlap;
  }

  lemma PushChains(m: Mem, m': Mem, h: int, g: Body, a: int, i: int)
    requires CachesRep(m, h, g.caches) && CachesListed(g.blocks, g.caches) && 0 <= i < NUM_BUCKETS && a != 0
    requires g.caches.loose == -1
    requires forall c :: c in g.blocks && g.blocks[c].kind.Cached? ==> c != a && PrevF(m', c) == PrevF(m, c)
    requires m' == Wr(Wr(m, a + 16, Rd(m, CacheSlot(h, i))), CacheSlot(h, i), a)
    requires forall j :: 0 <= j < NUM_BUCKETS ==> CacheSlot(h, j) != a + 16
    ensures CachesRep(m', h, Pushed(g.caches, i, a))
  {
    var caches' := Pushed(g.caches, i, a);
    forall j | 0 <= j < NUM_BUCKETS ensures Chain(m', FirstCached(m', h, caches', j), caches'.lists[j]) {
      ChainKept(m, m', FirstCached(m, h, g.caches, j), g.caches.lists[j]);
      if j == i { assert caches'.lists[i][1..] == g.caches.lists[i]; }
    }
  }

  lemma PushListed(b: Blocks, a: int, i: int, caches: Caches)
    requires CachesListed(b, caches) && a in b && b[a].kind.Live? && 0 <= i < NUM_BUCKETS
    requires b[a].size == MIN_BLOCK + 8 * i
    ensures CachesListed(Rekind(b, a, Cached), Pushed(caches, i, a))
  {
  }

  /** The first block of a cache list is taken for a request of `req` bytes. */
  lemma PopCached(m: Mem, h: int, g: Body, x: Index, i: int, req: int)
    requires BodyOk(m, h, g) && IndexInv(m, h, x) && IndexedBut(x, g.blocks, {})
    requires 0 <= i < NUM_BUCKETS && Rd(m, CacheSlot(h, i)) != 0 && g.caches.loose == -1
    ensures |g.caches.lists| == NUM_BUCKETS && g.caches.lists[i] != []
    ensures var a := Rd(m, CacheSlot(h, i));
            && a == g.caches.lists[i][0] && a in g.blocks && g.blocks[a].kind.Cached? && g.blocks[a].size == MIN_BLOCK + 8 * i
            && var m' := Wr(m, CacheSlot(h, i), PrevF(m, a));
               var g' := g.(blocks := Rekind(g.blocks, a, Live(req)), caches := Popped(g.caches, i));
               && BodyOk(m', h, g') && IndexInv(m', h, x) && IndexedBut(x, g'.blocks, {})
               && LiveKept(m, m', g.blocks, g'.blocks, a) && NoNewLive(g.blocks, g'.blocks, a)
               && SamePayload(m, m', g.blocks, a)
  {
    hide TileInv, TagsOutside, IndexInv, SegsRep, SamePayload;
    var b, a := g.blocks, Rd(m, CacheSlot(h, i));
    assert Chain(m, FirstCached(m, h, g.caches, i), g.caches.lists[i]);
    assert a in g.caches.lists[i];
    hide Chain;
    var m' := Wr(m, CacheSlot(h, i), PrevF(m, a));
    CacheWrites(m, m', h, g, x, a, i);
    OneSlot(m, m', h, g, a, i);
    RekindTiled(h, g.segs, b, a, Live(req));
    RekindTags(m, m', b, a, Live(req));
    RekindSums(b, a, Live(req));
    SegsRepKept(m, m', h, g.segs, g.order);
    forall j, c | 0 <= j < NUM_BUCKETS && c in g.caches.lists[j] ensures PrevF(m', c) == PrevF(m, c) {
      Bounds(h, g.segs, b, c);
      LinkKept(m, m', b, c);
    }
    PopChains(m, m', h, g, i);
    PopListed(b, a, i, g.caches, Live(req));
    assert LiveKept(m, m', b, Rekind(b, a, Live(req)), a);
  }

  lemma OneSlot(m: Mem, m': Mem, h: int, g: Body, a: int, i: int)
    requires TileInv(h, g.segs, g.blocks) && a in g.blocks && 0 <= i < NUM_BUCKETS
    requires forall w :: w != CacheSlot(h, i) ==> Rd(m', w) == Rd(m, w)
    ensures SamePayload(m, m', g.blocks, a)
  {
    hide TileInv;
    OutsideStruct(h, g.segs, g.blocks, a);
  }

  lemma PopChains(m: Mem, m': Mem, h: int, g: Body, i: int)
    requires CachesRep(m, h, g.caches) && 0 <= i < NUM_BUCKETS && g.caches.lists[i] != [] && g.caches.loose == -1
    requires m' == Wr(m, CacheSlot(h, i), PrevF(m, g.caches.lists[i][0]))
    requires forall j, c :: 0 <= j < NUM_BUCKETS && c in g.caches.lists[j] ==> PrevF(m', c) == PrevF(m, c)
    ensures CachesRep(m', h, Popped(g.caches, i))
  {
    var caches' := Popped(g.caches, i);
    forall j | 0 <= j < NUM_BUCKETS ensures Chain(m', FirstCached(m', h, caches', j), caches'.lists[j]) {
      if j == i {
        assert Chain(m, FirstCached(m, h, g.caches, i), g.caches.lists[i]);
        forall c | c in caches'.lists[i] ensures PrevF(m', c) == PrevF(m, c) { assert c in g.caches.lists[i]; }
        ChainKept(m, m', PrevF(m, g.caches.lists[i][0]), caches'.lists[i]);
      } else {
        ChainKept(m, m', FirstCached(m, h, g.caches, j), g.caches.lists[j]);
      }
    }
  }

  lemma PopListed(b: Blocks, a: int, i: int, caches: Caches, k: Kind)
    requires CachesListed(b, caches) && 0 <= i < NUM_BUCKETS && caches.lists[i] != [] && a == caches.lists[i][0]
    requires a in b && b[a].kind.Cached? && b[a].size == MIN_BLOCK + 8 * i && k.Live?
    ensures CachesListed(Rekind(b, a, k), Popped(caches, i))
  {
    var r := caches.lists[i];
    TailDistinct(r);
    forall c ensures c in r[1..] <==> c in r && c != a { }
  }

  // ---------- flushing a cache list ----------

  /** A flush starts on list `i`: its head is now the local variable. */
  lemma Loosen(m: Mem, h: int, g: Body, i: int)
    requires BodyOk(m, h, g) && g.caches.loose == -1 && 0 <= i < NUM_BUCKETS
    ensures BodyOk(m, h, g.(caches := Caches(g.caches.lists, i, Rd(m, CacheSlot(h, i)))))
  {
    hide TileInv, TagsOutside, SegsRep, Chain;
    assert forall j :: 0 <= j < NUM_BUCKETS ==> Chain(m, FirstCached(m, h, g.caches, j), g.caches.lists[j]);
  }

  /** The flush takes the first block: it remembers the successor and frees the block, which until
      then counts as live. No word of memory changes. */
  lemma LoosePop(m: Mem, h: int, g: Body, x: Index, out: set<int>)
    requires BodyOk(m, h, g) && IndexedBut(x, g.blocks, out) && 0 <= g.caches.loose < NUM_BUCKETS && g.caches.head != 0
    ensures var a, i := g.caches.head, g.caches.loose;
            && |g.caches.lists| == NUM_BUCKETS && g.caches.lists[i] != [] && a == g.caches.lists[i][0]
            && a in g.blocks && g.blocks[a].kind.Cached? && g.blocks[a].size == MIN_BLOCK + 8 * i
            && var g' := g.(blocks := Rekind(g.blocks, a, Live(0)), caches := Popped(g.caches, i).(head := PrevF(m, a)));
               BodyOk(m, h, g') && IndexedBut(x, g'.blocks, out)
  {
    hide TileInv, TagsOutside, SegsRep;
    var b, a, i := g.blocks, g.caches.head, g.caches.loose;
    assert Chain(m, FirstCached(m, h, g.caches, i), g.caches.lists[i]);
    assert a in g.caches.lists[i];
    var caches' := Popped(g.caches, i).(head := PrevF(m, a));
    forall j | 0 <= j < NUM_BUCKETS ensures Chain(m, FirstCached(m, h, caches', j), caches'.lists[j]) {
      assert Chain(m, FirstCached(m, h, g.caches, j), g.caches.lists[j]);
    }
    hide Chain;
    RekindTiled(h, g.segs, b, a, Live(0));
    RekindTags(m, m, b, a, Live(0));
    RekindSums(b, a, Live(0));
    PopListed(b, a, i, g.caches, Live(0));
  }

  /** The list is worked off and its slot is cleared. */
  lemma Fasten(m: Mem, h: int, g: Body, x: Index, out: set<int>)
    requires BodyOk(m, h, g) && IndexInv(m, h, x) && IndexedBut(x, g.blocks, out)
    requires 0 <= g.caches.loose < NUM_BUCKETS && g.caches.head == 0
    ensures |g.caches.lists| == NUM_BUCKETS && g.caches.lists[g.caches.loose] == []
    ensures var m' := Wr(m, CacheSlot(h, g.caches.loose), 0);
            var g' := g.(caches := Caches(g.caches.lists, -1, 0));
            BodyOk(m', h, g') && IndexInv(m', h, x) && forall c :: c in g.blocks ==> SamePayload(m, m', g.blocks, c)
  {
    hide TileInv, TagsOutside, SegsRep, IndexInv;
    var i := g.caches.loose;
    var m' := Wr(m, CacheSlot(h, i), 0);
    assert Chain(m, FirstCached(m, h, g.caches, i), g.caches.lists[i]);
    SlotOnly(m, m', h, g, x, i, out);
    var caches' := Caches(g.caches.lists, -1, 0);
    forall j | 0 <= j < NUM_BUCKETS ensures Chain(m', FirstCached(m', h, caches', j), caches'.lists[j]) {
      assert Chain(m, FirstCached(m, h, g.caches, j), g.caches.lists[j]);
      forall c | c in g.caches.lists[j] ensures PrevF(m', c) == PrevF(m, c) {
        Bounds(h, g.segs, g.blocks, c);
        LinkKept(m, m', g.blocks, c);
      }
      ChainKept(m, m', FirstCached(m, h, g.caches, j), g.caches.lists[j]);
    }
    SegsRepKept(m, m', h, g.segs, g.order);
    SameTags(m, m', g.blocks);
  }

  lemma SameTags(m: Mem, m': Mem, b: Blocks)
    requires TagsRep(m, b) && forall c :: c in b ==> Tag(m', c) == Tag(m, c) && PrevTag(m', c) == PrevTag(m, c)
    ensures TagsRep(m', b)
  {
    forall c | c in b ensures TagRight(m', b, c) && PrevRight(m', b, c) { TagsAt(m, b, c); }
  }

  /** Changing a cache slot changes nothing that anything else depends on. */
  lemma SlotOnly(m: Mem, m': Mem, h: int, g: Body, x: Index, i: int, out: set<int>)
    requires BodyOk(m, h, g) && IndexInv(m, h, x) && IndexedBut(x, g.blocks, out) && 0 <= i < NUM_BUCKETS
    requires forall w :: w != CacheSlot(h, i) ==> Rd(m', w) == Rd(m, w)
    ensures IndexInv(m', h, x)
    ensures forall c :: c in g.blocks ==>
              Tag(m', c) == Tag(m, c) && PrevTag(m', c) == PrevTag(m, c) && SamePayload(m, m', g.blocks, c)
    ensures Rd(m', SegmentsSlot(h)) == Rd(m, SegmentsSlot(h))
    ensures forall s :: s in g.segs ==> Rd(m', s) == Rd(m, s) && Rd(m', s + 8) == Rd(m, s + 8)
  {
    hide TileInv, TagsOutside, IndexInv, SegsRep, CachesRep, CachesListed;
    IndexedFree(x, g.blocks, out);
    forall c, w | c in g.blocks && c <= w < c + g.blocks[c].size ensures Rd(m', w) == Rd(m, w) {
      OutsideStruct(h, g.segs, g.blocks, c);
    }
    forall c | c in g.blocks
      ensures Tag(m', c) == Tag(m, c) && PrevTag(m', c) == PrevTag(m, c)
    {
      Bounds(h, g.segs, g.blocks, c);
    }
    forall s | s in g.segs
      ensures Rd(m', s) == Rd(m, s) && Rd(m', s + 8) == Rd(m, s + 8)
    {
      SegmentOutside(h, g.segs, g.blocks, s);
    }
    forall w | IndexWord(h, x, w) ensures Rd(m', w) == Rd(m, w) {
      if !(h + 664 <= w < h + 2216) {
        var c :| c in x.size && (w == c || c + 16 <= w < c + x.size[c]);
        Bounds(h, g.segs, g.blocks, c);
      }
    }
    assert SameIndexWords(m, m', h, x);
    IndexSame(m, m', h, x);
  }
}
