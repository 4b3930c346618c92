/** A run that ends in a damaged heap: the storage refuses to resize a segment whose free tail has
    already been unlinked (zend_alloc.c, the path to `out_of_memory` in `_zend_mm_realloc_int`). */
module LostBlock {
  import opened Words
  import opened Memory
  import opened Tiling
  import opened HeapMemory
  import opened HeapOps
  import opened HeapFacts
  import opened FreeSearch
  import opened Sums
  import opened HeapEffects
  import opened ZendHeap

  const HEAP_AT: int := 1048576
  const SEG_AT: int := 65536
  const UNIT: nat := 256

  lemma UnitIsGood()
    ensures GoodUnit(UNIT)
  {
    assert Pow2(8) == 2 * Pow2(7) == 4 * Pow2(6) == 8 * Pow2(5) == 16 * Pow2(4) == 32 * Pow2(3) == 64 * Pow2(2) == 128 * Pow2(1) == 256;
  }

  lemma Sizes()
    ensures TrueSize(100) == 120 && TrueSize(300) == 320 && SegmentSize(120, UNIT) == 256
    ensures SegmentSize(320, UNIT) == 512
  {
  }

  /** The three blocks after the first allocation. */
  lemma FirstLayout(b: Blocks)
    requires CutFrom(map[], b, SEG_AT, 256, 120, 100)
    ensures var a := SEG_AT + HEADER;
            && a in b && b[a] == Blk(120, Live(100), 0, SEG_AT) && a + 120 in b && b[a + 120] == Blk(104, Free, 120, SEG_AT)
            && a + 224 in b && b[a + 224].kind.Guard?
            && forall c :: c in b ==> !b[c].kind.Cached?
  {
  }

  /** One allocation of 100 bytes, then a request for 300 that the storage cannot meet: the free block
      behind the first is on no list any more, although its tag says free. */
  method Damage(m: Mem) returns (h: Heap, r: Outcome)
    ensures fresh(h) && !h.Valid() && h.Lost(SEG_AT + HEADER + 120) && r.MemoryError?
  {
    hide Heap.Valid, Heap.LosesNext, Heap.Lost, CacheHit, NothingFits, NextSuffices, Resizable, NewSegmentFor, Granted,
         Resized, TrueSize, SegmentSize, RegionFree, Refused, AllocEffect, ResizeEffect;
    UnitIsGood();
    h := new Heap(HEAP_AT, UNIT, m);
    StorageNow(h);
    ghost var g0 := h.g;
    var a := h.AllocInt(100, SEG_AT);
    Sizes();
    Allowed();
    Loses(h, g0, a.address);
    r := h.ReallocInt(a.address, 300, 0);
  }

  lemma StorageNow(h: Heap)
    requires h.Valid()
    ensures h.storage == h.g.segs && h.realSize == Sum(h.g.segs)
  {
    hide BodyOk, Heap.IndexOk, IndexedBut, Coalesced, Heap.Sound, Sum;
  }

  lemma Allowed()
    ensures !Refused(120, UNIT, 0, HALF_WORD / 2) && RegionFree(HEAP_AT, map[], SEG_AT, 256)
  {
    Sizes();
    hide SegmentSize;
  }

  lemma NoneCached(g: Body, i: int)
    requires CachesListed(g.blocks, g.caches) && 0 <= i < NUM_BUCKETS
    requires forall c :: c in g.blocks ==> !g.blocks[c].kind.Cached?
    ensures g.caches.lists[i] == []
  {
    var caches := g.caches;
    if |caches.lists[i]| > 0 {
      CachedHere(g.blocks, caches, i, caches.lists[i][0]);
      assert false;
    }
  }

  lemma CachedHere(b: Blocks, caches: Caches, i: int, c: int)
    requires CachesListed(b, caches) && 0 <= i < NUM_BUCKETS && c in caches.lists[i]
    ensures c in b && b[c].kind.Cached?
  {
  }

  lemma Loses(h: Heap, g0: Body, p: int)
    requires h.Valid() && h.base == HEAP_AT && h.unit == UNIT && h.limit == HALF_WORD / 2
    requires g0.blocks == map[] && g0.segs == map[] && NewSegmentFor(g0, h.g, p, SEG_AT, 120, UNIT, 100)
    ensures h.IsLive(p - HEADER) && h.LosesNext(p, 300, 0) && p - HEADER == SEG_AT + HEADER
    ensures h.g.blocks[p - HEADER].size == 120
    ensures h.g.blocks[p - HEADER].prev == 0 && LastRun(h.g.blocks, p - HEADER, 320) && p - 2 * HEADER in h.g.segs
    ensures (h.realSize + 512 - h.g.segs[p - 2 * HEADER]) % WORD <= h.limit
  {
    Sizes();
    hide TileInv, TagsOutside, CachesRep, CachesListed, SegsRep, Heap.IndexOk, IndexedBut, Coalesced, AnyUnit, Roomy,
         Carve, AddSegment, TrueSize, SegmentSize, Sum, UsedOf, CachedOf;
    FirstLayout(h.g.blocks);
    SumAdd(map[], SEG_AT, 256);
    EmptyAccounts();
    var i := BucketIndex(320);
    EmptyList(h.mem, h.base, h.g, i);
    NoneCached(h.g, i);
    assert h.realSize == 256;
  }
}
