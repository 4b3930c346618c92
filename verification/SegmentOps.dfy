/** Segments coming, going and moving: the rest of the heap does not notice. */
module SegmentOps {
  import opened Words
  import opened Memory
  import opened Index
  import opened Tiling
  import opened HeapMemory
  import opened HeapOps

  /** Only the region from `lo` to `hi` and the list slot `p` may differ. */
  ghost predicate SameButRegion(m: Mem, m': Mem, lo: int, hi: int, p: int)
  {
    forall w :: !(lo <= w < hi) && w != p ==> Rd(m', w) == Rd(m, w)
  }

  /** The region misses the heap structure and every segment but `dead`; `p` is a list slot. */
  ghost predicate RegionClear(h: int, segs: map<int, int>, lo: int, hi: int, p: int, dead: int)
  {
    && (hi <= h || h + STRUCT_SIZE <= lo)
    && (forall t :: t in segs && t != dead ==> t + segs[t] <= lo || hi <= t)
    && (p == SegmentsSlot(h) || (exists t :: t in segs && p == t + 8))
  }

  lemma BlockWordKept(h: int, segs: map<int, int>, b: Blocks, m: Mem, m': Mem, lo: int, hi: int, p: int, dead: int,
      c: int, w: int)
    requires TileInv(h, segs, b) && SameButRegion(m, m', lo, hi, p) && RegionClear(h, segs, lo, hi, p, dead)
    requires c in b && b[c].seg != dead && c <= w < c + b[c].size
    ensures Rd(m', w) == Rd(m, w)
  {
    hide TileInv;
    Bounds(h, segs, b, c);
    OutsideStruct(h, segs, b, c);
    if p != SegmentsSlot(h) {
      var t :| t in segs && p == t + 8;
      HeaderOutside(h, segs, b, c, t);
    }
  }

  lemma IndexSurvives(m: Mem, m': Mem, h: int, g: Body, x: Index, lo: int, hi: int, p: int, dead: int)
    requires TileInv(h, g.segs, g.blocks) && IndexInv(m, h, x) && FreeIn(g.blocks, x.size)
    requires SameButRegion(m, m', lo, hi, p) && RegionClear(h, g.segs, lo, hi, p, dead)
    requires forall c :: c in x.size ==> c in g.blocks && g.blocks[c].seg != dead
    ensures IndexInv(m', h, x)
  {
    forall w | IndexWord(h, x, w) ensures Rd(m', w) == Rd(m, w) {
      if h + 664 <= w < h + 2216 {
        SlotsApart(h, g.segs, g.blocks, p);
      } else {
        hide TileInv;
        var c :| c in x.size && (w == c || c + 16 <= w < c + x.size[c]);
        Bounds(h, g.segs, g.blocks, c);
        BlockWordKept(h, g.segs, g.blocks, m, m', lo, hi, p, dead, c, w);
      }
    }
    hide *;
    assert SameIndexWords(m, m', h, x) by { SameWords(m, m', h, x); }
    IndexSame(m, m', h, x);
  }

  lemma SameWords(m: Mem, m': Mem, h: int, x: Index)
    requires forall w :: IndexWord(h, x, w) ==> Rd(m', w) == Rd(m, w)
    ensures SameIndexWords(m, m', h, x)
  {
  }

  /** A list slot is outside the list part of the heap structure. */
  lemma SlotsApart(h: int, segs: map<int, int>, b: Blocks, p: int)
    requires TileInv(h, segs, b) && (p == SegmentsSlot(h) || (exists t :: t in segs && p == t + 8))
    ensures p == SegmentsSlot(h) || !(h <= p < h + STRUCT_SIZE)
  {
    hide Within, NextLinked, PrevLinked, Ends, NoOverlap;
  }

  lemma CachesSurvive(m: Mem, m': Mem, h: int, g: Body, lo: int, hi: int, p: int, dead: int)
    requires TileInv(h, g.segs, g.blocks) && CachesRep(m, h, g.caches) && CachesListed(g.blocks, g.caches)
    requires SameButRegion(m, m', lo, hi, p) && RegionClear(h, g.segs, lo, hi, p, dead)
    requires forall c :: c in g.blocks && g.blocks[c].kind.Cached? ==> g.blocks[c].seg != dead
    ensures CachesRep(m', h, g.caches)
  {
    hide TileInv, Chain;
    forall i | 0 <= i < NUM_BUCKETS ensures Chain(m', FirstCached(m', h, g.caches, i), g.caches.lists[i]) {
      SlotsApart(h, g.segs, g.blocks, p);
      forall c | c in g.caches.lists[i] ensures PrevF(m', c) == PrevF(m, c) {
        Bounds(h, g.segs, g.blocks, c);
        BlockWordKept(h, g.segs, g.blocks, m, m', lo, hi, p, dead, c, c + 16);
      }
      ChainKept(m, m', FirstCached(m, h, g.caches, i), g.caches.lists[i]);
    }
  }

  lemma TagsSurvive(m: Mem, m': Mem, h: int, g: Body, lo: int, hi: int, p: int, dead: int, c: int)
    requires TileInv(h, g.segs, g.blocks) && TagsRep(m, g.blocks)
    requires SameButRegion(m, m', lo, hi, p) && RegionClear(h, g.segs, lo, hi, p, dead)
    requires c in g.blocks && g.blocks[c].seg != dead
    ensures TagRight(m', g.blocks, c) && PrevRight(m', g.blocks, c)
  {
    hide TileInv, TagsRep;
    TagsAt(m, g.blocks, c);
    Bounds(h, g.segs, g.blocks, c);
    BlockWordKept(h, g.segs, g.blocks, m, m', lo, hi, p, dead, c, c);
    BlockWordKept(h, g.segs, g.blocks, m, m', lo, hi, p, dead, c, c + 8);
  }

  lemma PayloadSurvives(m: Mem, m': Mem, h: int, g: Body, lo: int, hi: int, p: int, dead: int, c: int)
    requires TileInv(h, g.segs, g.blocks) && c in g.blocks && g.blocks[c].seg != dead
    requires SameButRegion(m, m', lo, hi, p) && RegionClear(h, g.segs, lo, hi, p, dead)
    ensures SamePayload(m, m', g.blocks, c)
  {
    hide TileInv;
    forall w | c + HEADER <= w < c + g.blocks[c].size ensures Rd(m', w) == Rd(m, w) {
      BlockWordKept(h, g.segs, g.blocks, m, m', lo, hi, p, dead, c, w);
    }
  }

  // ---------- a segment goes ----------

  lemma DropTags(m: Mem, m': Mem, h: int, g: Body, p: int, seg: int)
    requires TileInv(h, g.segs, g.blocks) && TagsRep(m, g.blocks)
    requires SameButRegion(m, m', 0, 0, p) && RegionClear(h, g.segs, 0, 0, p, seg)
    ensures TagsRep(m', DropSegment(g.blocks, seg))
  {
    hide TileInv, SameButRegion, RegionClear;
    var b' := DropSegment(g.blocks, seg);
    forall c | c in b' ensures TagRight(m', b', c) && PrevRight(m', b', c) {
      hide TagsRep;
      TagsSurvive(m, m', h, g, 0, 0, p, seg, c);
      Links(h, g.segs, g.blocks, c);
    }
  }

  /** The list without its member number `k`. */
  lemma DropLinked(m: Mem, m': Mem, h: int, order: seq<int>, k: int)
    requires SegLinked(m, h, order) && Memory.Distinct(order) && 0 <= k < |order|
    requires forall i, j :: 0 <= i < |order| && 0 <= j <= |order| && (j == 0 || j - 1 != i) ==>
              SlotAt(h, order, j) != order[i] + 8
    requires m' == Wr(m, SlotAt(h, order, k), Rd(m, order[k] + 8))
    ensures SegLinked(m', h, Drop(order, k))
  {
    var order' := Drop(order, k);
    assert Rd(m, SlotAt(h, order, k + 1)) == NextAt(order, k + 1);
    forall j | 0 <= j <= |order'| ensures Rd(m', SlotAt(h, order', j)) == NextAt(order', j) {
      var i := if j <= k then j else j + 1;
      assert Rd(m, SlotAt(h, order, i)) == NextAt(order, i);
      if j == k {
        assert SlotAt(h, order', j) == SlotAt(h, order, k);
      } else {
        assert SlotAt(h, order', j) == SlotAt(h, order, i);
        SlotsDistinct(h, order, i, k);
      }
    }
  }

  lemma SlotsDistinct(h: int, order: seq<int>, i: int, j: int)
    requires 0 <= i <= |order| && 0 <= j <= |order| && i != j && Memory.Distinct(order)
    requires forall i, j :: 0 <= i < |order| && 0 <= j <= |order| && (j == 0 || j - 1 != i) ==>
              SlotAt(h, order, j) != order[i] + 8
    ensures SlotAt(h, order, i) != SlotAt(h, order, j)
  {
    if i > 0 { assert SlotAt(h, order, j) != order[i - 1] + 8; }
    else { assert SlotAt(h, order, i) != order[j - 1] + 8; }
  }

  /** Slots of a good segment list are pairwise different words. */
  lemma SlotWords(h: int, segs: map<int, int>, order: seq<int>)
    requires SegsInv(h, segs) && Memory.Distinct(order) && forall s :: s in order <==> s in segs
    ensures forall i, j :: 0 <= i < |order| && 0 <= j <= |order| && (j == 0 || j - 1 != i) ==>
              SlotAt(h, order, j) != order[i] + 8
    ensures forall j :: 0 <= j <= |order| ==>
              SlotAt(h, order, j) == SegmentsSlot(h) || (exists t :: t in segs && SlotAt(h, order, j) == t + 8)
  {
    forall i, j | 0 <= i < |order| && 0 <= j <= |order| && (j == 0 || j - 1 != i) ensures SlotAt(h, order, j) != order[i] + 8 {
      assert order[i] in order;
    }
    forall j | 0 <= j <= |order|
      ensures SlotAt(h, order, j) == SegmentsSlot(h) || (exists t :: t in segs && SlotAt(h, order, j) == t + 8)
    {
      if j > 0 { assert order[j - 1] in order; }
    }
  }

  lemma DropSegsRep(m: Mem, m': Mem, h: int, segs: map<int, int>, order: seq<int>, k: int)
    requires SegsInv(h, segs) && SegsRep(m, h, segs, order) && 0 <= k < |order|
    requires m' == Wr(m, SlotAt(h, order, k), Rd(m, order[k] + 8))
    ensures SegsRep(m', h, segs - {order[k]}, Drop(order, k))
  {
    SlotWords(h, segs, order);
    DropLinked(m, m', h, order, k);
    DistinctDrop(order, k);
    var order', segs' := Drop(order, k), segs - {order[k]};
    forall s | s in order' ensures s in order && s != order[k] {
      var i :| 0 <= i < |order'| && order'[i] == s;
      assert order[if i < k then i else i + 1] == s;
    }
    forall s | s in order && s != order[k] ensures s in order' {
      var i :| 0 <= i < |order| && order[i] == s;
      assert order'[if i < k then i else i - 1] == s;
    }
    forall s | s in segs' ensures Rd(m', s) == segs'[s] {
      HeaderNotSlot(h, segs, order, k, s);
    }
  }

  lemma HeaderNotSlot(h: int, segs: map<int, int>, order: seq<int>, k: int, s: int)
    requires SegsInv(h, segs) && 0 <= k <= |order| && s in segs && forall s :: s in order <==> s in segs
    ensures SlotAt(h, order, k) != s
  {
    if k > 0 { assert order[k - 1] in order; }
  }

  /** Removing a segment none of whose blocks is indexed or cached. */
  lemma DropBody(m: Mem, m': Mem, h: int, g: Body, x: Index, k: int)
    requires BodyOk(m, h, g) && IndexInv(m, h, x) && FreeIn(g.blocks, x.size) && 0 <= k < |g.order|
    requires forall c :: c in g.blocks && g.blocks[c].seg == g.order[k] ==> c !in x.size && !g.blocks[c].kind.Cached?
    requires m' == Wr(m, SlotAt(h, g.order, k), Rd(m, g.order[k] + 8))
    ensures var seg := g.order[k];
            var g' := Body(g.segs - {seg}, DropSegment(g.blocks, seg), Drop(g.order, k), g.caches);
            BodyOk(m', h, g') && IndexInv(m', h, x)
    ensures forall c :: c in g.blocks && g.blocks[c].seg != g.order[k] ==> SamePayload(m, m', g.blocks, c)
  {
    hide CachesRep, IndexInv, SamePayload, Within, NextLinked, PrevLinked, Ends, NoOverlap, TagsOutside, DropSegment,
         FreeIn;
    var seg, p := g.order[k], SlotAt(h, g.order, k);
    DropSegsRep(m, m', h, g.segs, g.order, k);
    SlotWords(h, g.segs, g.order);
    assert SameButRegion(m, m', 0, 0, p) && RegionClear(h, g.segs, 0, 0, p, seg);
    hide SegsRep, SegsInv, TileInv, SameButRegion, RegionClear;
    DropTags(m, m', h, g, p, seg);
    DropSegmentTiled(h, g.segs, g.blocks, seg);
    FreeInBlocks(g.blocks, x);
    IndexSurvives(m, m', h, g, x, 0, 0, p, seg);
    CachesSurvive(m, m', h, g, 0, 0, p, seg);
    DropCaches(g.blocks, seg, g.caches);
    forall c | c in g.blocks && g.blocks[c].seg != seg ensures SamePayload(m, m', g.blocks, c) {
      PayloadSurvives(m, m', h, g, 0, 0, p, seg, c);
    }
  }

  lemma FreeInBlocks(b: Blocks, x: Index)
    requires FreeIn(b, x.size)
    ensures forall c :: c in x.size ==> c in b
  {
  }

  lemma DropCaches(b: Blocks, seg: int, caches: Caches)
    requires CachesListed(b, caches) && forall c :: c in b && b[c].seg == seg ==> !b[c].kind.Cached?
    ensures CachesListed(DropSegment(b, seg), caches)
  {
  }

  lemma DropIndexed(x: Index, b: Blocks, seg: int, out: set<int>, aside: set<int>)
    requires IndexedBut(x, b, out + aside) && forall c :: c in b && b[c].seg == seg ==> c !in x.size
    requires forall c :: c in out ==> c in b && b[c].seg == seg
    requires forall c :: c in aside && c in b ==> b[c].seg != seg
    ensures IndexedBut(x, DropSegment(b, seg), aside)
  {
    IndexedFree(x, b, out + aside);
    var d := FreeOf(DropSegment(b, seg)) - aside;
    forall c ensures c in x.size <==> c in d ensures c in d ==> d[c] == x.size[c] { }
    assert x.size == d;
  }

  // ---------- a segment comes or moves ----------

  /** What the code writes into a segment before its first block is tagged. */
  ghost predicate SegmentSet(m: Mem, seg: int, size: int, next: int)
  {
    && Rd(m, seg) == size && Rd(m, seg + 8) == next
    && PrevTag(m, seg + HEADER) == FIRST_MARK && Tag(m, seg + size - HEADER) == HEADER + 3
  }

  lemma AddTags(m: Mem, h: int, segs: map<int, int>, b: Blocks, seg: int, size: int)
    requires TileInv(h, segs, b) && seg !in segs && size >= 2 * HEADER + MIN_BLOCK
    requires seg + HEADER !in b && seg + size - HEADER !in b
    requires forall c {:trigger TagRight(m, b, c)} :: c in b ==> TagRight(m, b, c)
    requires forall c {:trigger PrevRight(m, b, c)} :: c in b ==> PrevRight(m, b, c)
    requires PrevTag(m, seg + HEADER) == FIRST_MARK && Tag(m, seg + size - HEADER) == HEADER + 3
    ensures TagsOutside(m, AddSegment(b, seg, size), seg + HEADER, seg + size - HEADER)
  {
    hide TileInv;
    var b' := AddSegment(b, seg, size);
    forall c | c in b' && !(seg + HEADER <= c < seg + size - HEADER) ensures TagRight(m, b', c) {
      if c in b { assert TagRight(m, b, c); }
    }
    forall c | c in b' && !(seg + HEADER < c <= seg + size - HEADER) ensures PrevRight(m, b', c) {
      if c in b { assert PrevRight(m, b, c); Links(h, segs, b, c); }
    }
  }

  /** A fresh region holds no block. */
  lemma FreshRegion(h: int, segs: map<int, int>, b: Blocks, seg: int, size: int)
    requires TileInv(h, segs, b) && seg !in segs && SegsInv(h, segs[seg := size])
    ensures seg + HEADER !in b && seg + size - HEADER !in b && size >= 2 * HEADER + MIN_BLOCK
    ensures seg + size <= h || h + STRUCT_SIZE <= seg
    ensures forall t :: t in segs ==> t + segs[t] <= seg || seg + size <= t
    ensures forall c :: c in b ==> c + b[c].size <= seg || seg + size <= c
  {
    var segs' := segs[seg := size];
    assert seg in segs' && segs'[seg] == size;
    forall t | t in segs ensures t + segs[t] <= seg || seg + size <= t { assert t in segs' && segs'[t] == segs[t]; }
    hide TileInv;
    forall c | c in b ensures b[c].size > 0 && (c + b[c].size <= seg || seg + size <= c) { Bounds(h, segs, b, c); }
  }

  lemma AddSameCached(b: Blocks, seg: int, size: int, caches: Caches)
    requires CachesListed(b, caches) && seg + HEADER !in b && seg + size - HEADER !in b
    ensures CachesListed(AddSegment(b, seg, size), caches)
  {
  }

  lemma AddIndexed(x: Index, b: Blocks, seg: int, size: int)
    requires IndexedBut(x, b, {}) && seg + HEADER !in b && seg + size - HEADER !in b && size > 2 * HEADER
    ensures IndexedBut(x, AddSegment(b, seg, size), {seg + HEADER}) && seg + HEADER !in x.size
  {
    IndexedFree(x, b, {});
    assert x.size == FreeOf(AddSegment(b, seg, size)) - {seg + HEADER};
  }

  lemma FrontSegsRep(m: Mem, m': Mem, h: int, segs: map<int, int>, order: seq<int>, seg: int, size: int)
    requires SegsInv(h, segs[seg := size]) && seg !in segs && SegsRep(m, h, segs, order)
    requires SameButRegion(m, m', seg, seg + size, SegmentsSlot(h)) && Rd(m', SegmentsSlot(h)) == seg
    requires Rd(m', seg) == size && Rd(m', seg + 8) == Rd(m, SegmentsSlot(h))
    ensures SegsRep(m', h, segs[seg := size], [seg] + order)
  {
    var segs', order' := segs[seg := size], [seg] + order;
    assert seg in segs' && segs'[seg] == size;
    forall s | s in segs ensures Rd(m', s) == Rd(m, s) && Rd(m', s + 8) == Rd(m, s + 8) {
      assert s in segs' && segs'[s] == segs[s];
    }
    forall k | 0 <= k <= |order'| ensures Rd(m', SlotAt(h, order', k)) == NextAt(order', k) {
      if k == 1 { assert Rd(m, SlotAt(h, order, 0)) == NextAt(order, 0); }
      if k > 1 {
        assert order[k - 2] in order;
        assert SlotAt(h, order', k) == SlotAt(h, order, k - 1);
        assert Rd(m, SlotAt(h, order, k - 1)) == NextAt(order, k - 1);
      }
    }
  }

  /** A new segment, its whole inside one free block that is not yet tagged nor indexed. */
  lemma NewBody(m: Mem, m': Mem, h: int, g: Body, x: Index, seg: int, size: int)
    requires BodyOk(m, h, g) && IndexInv(m, h, x) && IndexedBut(x, g.blocks, {})
    requires seg !in g.segs && SegsInv(h, g.segs[seg := size])
    requires SameButRegion(m, m', seg, seg + size, SegmentsSlot(h)) && Rd(m', SegmentsSlot(h)) == seg
    requires SegmentSet(m', seg, size, Rd(m, SegmentsSlot(h)))
    ensures var g' := Body(g.segs[seg := size], AddSegment(g.blocks, seg, size), [seg] + g.order, g.caches);
            && BodyBut(m', h, g', seg + HEADER, seg + size - HEADER) && IndexInv(m', h, x)
            && IndexedBut(x, g'.blocks, {seg + HEADER}) && seg + HEADER !in x.size
    ensures forall c :: c in g.blocks ==> SamePayload(m, m', g.blocks, c)
  {
    hide TileInv, CachesRep, CachesListed, IndexInv, SamePayload, TagsOutside, FreeIn, SegsRep, SegsInv, SameButRegion,
         AddSegment;
    FreshRegion(h, g.segs, g.blocks, seg, size);
    var p := SegmentsSlot(h);
    assert RegionClear(h, g.segs, seg, seg + size, p, 0);
    NoSegmentZero(h, g.segs, g.blocks);
    IndexedFree(x, g.blocks, {});
    FreeInBlocks(g.blocks, x);
    hide RegionClear, IndexedBut;
    IndexSurvives(m, m', h, g, x, seg, seg + size, p, 0);
    CachesSurvive(m, m', h, g, seg, seg + size, p, 0);
    AddSameCached(g.blocks, seg, size, g.caches);
    AddSegmentTiled(h, g.segs, g.blocks, seg, size);
    forall c | c in g.blocks ensures TagRight(m', g.blocks, c) && PrevRight(m', g.blocks, c) {
      TagsSurvive(m, m', h, g, seg, seg + size, p, 0, c);
    }
    AddTags(m', h, g.segs, g.blocks, seg, size);
    FrontSegsRep(m, m', h, g.segs, g.order, seg, size);
    AddIndexed(x, g.blocks, seg, size);
    forall c | c in g.blocks ensures SamePayload(m, m', g.blocks, c) {
      PayloadSurvives(m, m', h, g, seg, seg + size, p, 0, c);
    }
  }

  lemma NoSegmentZero(h: int, segs: map<int, int>, b: Blocks)
    requires TileInv(h, segs, b)
    ensures forall c :: c in b ==> b[c].seg != 0
    ensures 0 !in segs
  {
    hide Within, NextLinked, PrevLinked, Ends, NoOverlap;
    forall c | c in b ensures b[c].seg != 0 { Bounds(h, segs, b, c); }
  }

  lemma MovedSegsRep(m: Mem, m': Mem, h: int, segs: map<int, int>, order: seq<int>, k: int, seg: int, size: int)
    requires SegsInv(h, segs) && SegsRep(m, h, segs, order) && 0 <= k < |order|
    requires SegsInv(h, (segs - {order[k]})[seg := size]) && (seg in segs ==> seg == order[k])
    requires SameButRegion(m, m', seg, seg + size, SlotAt(h, order, k)) && Rd(m', SlotAt(h, order, k)) == seg
    requires Rd(m', seg) == size && Rd(m', seg + 8) == Rd(m, order[k] + 8)
    ensures SegsRep(m', h, (segs - {order[k]})[seg := size], order[k := seg])
  {
    var segs', order' := (segs - {order[k]})[seg := size], order[k := seg];
    MovedOrder(segs, order, k, seg, segs', order');
    forall s | s in segs' ensures Rd(m', s) == segs'[s] { MovedHeader(m, m', h, segs, order, k, seg, size, s); }
    forall j | 0 <= j <= |order'| ensures Rd(m', SlotAt(h, order', j)) == NextAt(order', j) {
      assert Rd(m, SlotAt(h, order, j)) == NextAt(order, j);
      MovedSlot(m, m', h, segs, order, k, seg, size, j);
    }
  }

  /** The list with one member replaced lists the segments with one replaced. */
  lemma MovedOrder(segs: map<int, int>, order: seq<int>, k: int, seg: int, segs': map<int, int>, order': seq<int>)
    requires 0 <= k < |order| && Memory.Distinct(order) && (forall s :: s in order <==> s in segs)
    requires (seg in segs ==> seg == order[k])
    requires order' == order[k := seg] && forall s :: s in segs' <==> s == seg || (s in segs && s != order[k])
    ensures Memory.Distinct(order') && forall s :: s in order' <==> s in segs'
  {
    assert order'[k] == seg;
    forall i | 0 <= i < |order| && i != k
      ensures order[i] in segs && order[i] != seg && order[i] != order[k] && order'[i] == order[i]
    {
      assert order[i] in order && order[k] in order;
    }
    forall s | s in order' ensures s in segs' { var i :| 0 <= i < |order'| && order'[i] == s; }
    forall s | s in segs && s != order[k] ensures s in order' {
      var i :| 0 <= i < |order| && order[i] == s;
      assert order'[i] == s;
    }
  }

  lemma MovedHeader(m: Mem, m': Mem, h: int, segs: map<int, int>, order: seq<int>, k: int, seg: int, size: int, s: int)
    requires SegsInv(h, segs) && SegsRep(m, h, segs, order) && 0 <= k < |order|
    requires SegsInv(h, (segs - {order[k]})[seg := size])
    requires SameButRegion(m, m', seg, seg + size, SlotAt(h, order, k)) && Rd(m', seg) == size
    requires s in (segs - {order[k]})[seg := size]
    ensures Rd(m', s) == (segs - {order[k]})[seg := size][s]
  {
    hide SegLinked;
    var segs' := (segs - {order[k]})[seg := size];
    assert seg in segs' && segs'[seg] == size;
    if s != seg { HeaderNotSlot(h, segs, order, k, s); }
  }

  lemma MovedSlot(m: Mem, m': Mem, h: int, segs: map<int, int>, order: seq<int>, k: int, seg: int, size: int, j: int)
    requires SegsInv(h, segs) && SegsRep(m, h, segs, order) && 0 <= k < |order| && 0 <= j <= |order|
    requires SegsInv(h, (segs - {order[k]})[seg := size]) && (seg in segs ==> seg == order[k])
    requires SameButRegion(m, m', seg, seg + size, SlotAt(h, order, k)) && Rd(m', SlotAt(h, order, k)) == seg
    requires Rd(m', seg + 8) == Rd(m, order[k] + 8)
    ensures Rd(m', SlotAt(h, order[k := seg], j)) == if j == k then seg else Rd(m, SlotAt(h, order, j))
  {
    var segs' := (segs - {order[k]})[seg := size];
    assert seg in segs' && segs'[seg] == size;
    SlotWords(h, segs, order);
    if j == k + 1 {
      assert SlotAt(h, order[k := seg], j) == seg + 8 && SlotAt(h, order, j) == order[k] + 8;
    } else if j == k {
      assert SlotAt(h, order[k := seg], j) == SlotAt(h, order, j);
    } else {
      assert SlotAt(h, order[k := seg], j) == SlotAt(h, order, j);
      SlotsDistinct(h, order, j, k);
      if j > 0 {
        assert order[j - 1] in order;
        assert order[j - 1] in segs' && segs'[order[j - 1]] == segs[order[j - 1]];
      }
    }
  }

  /** A segment whose blocks are neither indexed nor cached is replaced, in place or elsewhere. */
  lemma MovedBody(m: Mem, m': Mem, h: int, g: Body, x: Index, k: int, seg: int, size: int, out: set<int>)
    requires BodyOk(m, h, g) && IndexInv(m, h, x) && IndexedBut(x, g.blocks, out) && 0 <= k < |g.order|
    requires forall c :: c in g.blocks && g.blocks[c].seg == g.order[k] ==> c !in x.size && !g.blocks[c].kind.Cached?
    requires forall c :: c in out ==> c in g.blocks && g.blocks[c].seg == g.order[k]
    requires (seg in g.segs ==> seg == g.order[k]) && SegsInv(h, (g.segs - {g.order[k]})[seg := size])
    requires SameButRegion(m, m', seg, seg + size, SlotAt(h, g.order, k)) && Rd(m', SlotAt(h, g.order, k)) == seg
    requires SegmentSet(m', seg, size, Rd(m, g.order[k] + 8))
    ensures var g' := Body((g.segs - {g.order[k]})[seg := size],
                           AddSegment(DropSegment(g.blocks, g.order[k]), seg, size), g.order[k := seg], g.caches);
            && BodyBut(m', h, g', seg + HEADER, seg + size - HEADER) && IndexInv(m', h, x)
            && IndexedBut(x, g'.blocks, {seg + HEADER}) && seg + HEADER !in x.size
    ensures forall c :: c in g.blocks && g.blocks[c].seg != g.order[k] ==> SamePayload(m, m', g.blocks, c)
  {
    hide TileInv, CachesRep, CachesListed, SegsRep, IndexInv, SamePayload, TagsOutside, FreeIn, SameButRegion,
         AddSegment, DropSegment, SegsInv, IndexedBut;
    var dead, p := g.order[k], SlotAt(h, g.order, k);
    var segs1, b1 := g.segs - {dead}, DropSegment(g.blocks, dead);
    DropSegmentTiled(h, g.segs, g.blocks, dead);
    ListFacts(m, h, g, k);
    FreshRegion(h, segs1, b1, seg, size);
    ClearOfOthers(h, g.segs, g.order, k, seg, size, g.blocks);
    hide RegionClear;
    MovedRest(m, m', h, g, x, k, seg, size, out);
    AddSegmentTiled(h, segs1, b1, seg, size);
    MovedTags(m, m', h, g, k, seg, size);
    TileSegs(h, g.segs, g.blocks);
    MovedSegsRep(m, m', h, g.segs, g.order, k, seg, size);
    DropCaches(g.blocks, dead, g.caches);
    AddSameCached(b1, seg, size, g.caches);
    assert out + {} == out;
    DropIndexed(x, g.blocks, dead, out, {});
    AddIndexed(x, b1, seg, size);
  }

  lemma ListFacts(m: Mem, h: int, g: Body, k: int)
    requires SegsRep(m, h, g.segs, g.order) && 0 <= k < |g.order|
    ensures (forall s :: s in g.order <==> s in g.segs) && Memory.Distinct(g.order) && g.order[k] in g.segs
  {
    assert g.order[k] in g.order;
  }

  /** Index, caches and payloads outside the segment that moves. */
  lemma MovedRest(m: Mem, m': Mem, h: int, g: Body, x: Index, k: int, seg: int, size: int, out: set<int>)
    requires BodyOk(m, h, g) && IndexInv(m, h, x) && IndexedBut(x, g.blocks, out) && 0 <= k < |g.order|
    requires forall c :: c in g.blocks && g.blocks[c].seg == g.order[k] ==> c !in x.size && !g.blocks[c].kind.Cached?
    requires SameButRegion(m, m', seg, seg + size, SlotAt(h, g.order, k))
    requires RegionClear(h, g.segs, seg, seg + size, SlotAt(h, g.order, k), g.order[k])
    ensures IndexInv(m', h, x) && CachesRep(m', h, g.caches)
    ensures forall c :: c in g.blocks && g.blocks[c].seg != g.order[k] ==> SamePayload(m, m', g.blocks, c)
  {
    hide TileInv, CachesRep, CachesListed, SegsRep, IndexInv, SamePayload, TagsOutside, FreeIn, SameButRegion,
         RegionClear, IndexedBut;
    var dead, p := g.order[k], SlotAt(h, g.order, k);
    IndexedFree(x, g.blocks, out);
    FreeInBlocks(g.blocks, x);
    IndexSurvives(m, m', h, g, x, seg, seg + size, p, dead);
    CachesSurvive(m, m', h, g, seg, seg + size, p, dead);
    forall c | c in g.blocks && g.blocks[c].seg != dead ensures SamePayload(m, m', g.blocks, c) {
      PayloadSurvives(m, m', h, g, seg, seg + size, p, dead, c);
    }
  }

  lemma TileSegs(h: int, segs: map<int, int>, b: Blocks)
    requires TileInv(h, segs, b)
    ensures SegsInv(h, segs)
  {
  }

  lemma ClearOfOthers(h: int, segs: map<int, int>, order: seq<int>, k: int, seg: int, size: int, b: Blocks)
    requires TileInv(h, segs, b) && 0 <= k < |order| && (forall s :: s in order <==> s in segs)
    requires Memory.Distinct(order)
    requires seg + size <= h || h + STRUCT_SIZE <= seg
    requires forall t :: t in segs - {order[k]} ==> t + segs[t] <= seg || seg + size <= t
    ensures RegionClear(h, segs, seg, seg + size, SlotAt(h, order, k), order[k])
  {
    TileSegs(h, segs, b);
    hide TileInv;
    SlotWords(h, segs, order);
    forall t | t in segs && t != order[k] ensures t + segs[t] <= seg || seg + size <= t {
      assert t in segs - {order[k]};
    }
  }

  lemma MovedTags(m: Mem, m': Mem, h: int, g: Body, k: int, seg: int, size: int)
    requires TileInv(h, g.segs, g.blocks) && TagsRep(m, g.blocks) && 0 <= k < |g.order|
    requires SameButRegion(m, m', seg, seg + size, SlotAt(h, g.order, k))
    requires RegionClear(h, g.segs, seg, seg + size, SlotAt(h, g.order, k), g.order[k])
    requires var b1 := DropSegment(g.blocks, g.order[k]);
             && seg !in g.segs - {g.order[k]} && size >= 2 * HEADER + MIN_BLOCK
             && seg + HEADER !in b1 && seg + size - HEADER !in b1
    requires PrevTag(m', seg + HEADER) == FIRST_MARK && Tag(m', seg + size - HEADER) == HEADER + 3
    ensures TagsOutside(m', AddSegment(DropSegment(g.blocks, g.order[k]), seg, size), seg + HEADER, seg + size - HEADER)
  {
    hide SameButRegion, RegionClear, AddSegment, TileInv, TagsRep;
    var dead, b1 := g.order[k], DropSegment(g.blocks, g.order[k]);
    DropSegmentTiled(h, g.segs, g.blocks, dead);
    forall c | c in b1 ensures TagRight(m', b1, c) && PrevRight(m', b1, c) {
      TagsSurvive(m, m', h, g, seg, seg + size, SlotAt(h, g.order, k), dead, c);
      Links(h, g.segs, g.blocks, c);
    }
    AddTags(m', h, g.segs - {dead}, b1, seg, size);
  }
}
