/** The heap of zend_alloc.c. Fields that the source reaches through pointers (list sentinels, trie
    slots, cache heads, the segment list) live in `mem` at their offsets from `base`. */
module ZendHeap {
  import opened Words
  import opened Memory
  import opened Trie
  import opened TrieOps
  import opened Index
  import opened IndexOps
  import opened TrieIndex
  import opened Bitmaps
  import opened IndexSteps
  import opened Tiling
  import opened HeapMemory
  import opened HeapOps
  import opened SegmentOps
  import opened Release
  import opened HeapFacts
  import opened FreeSearch
  import opened HeapEffects
  import opened Sums

  class Heap {
    const base: int                 // address of the heap structure
    const unit: nat                 // block_size: segments are multiples of it
    var mem: Mem
    var freeBitmap: nat
    var largeBitmap: nat
    var restCount: int
    var limit: nat
    var realSize: int
    var realPeak: int
    var size: int
    var peak: int
    var cached: int
    var storage: map<int, int>      // regions handed out by the storage handlers
    ghost var idx: Index            // the free-block index
    ghost var tidy: bool            // no small bit has been lost
    ghost var g: Body               // segments, blocks, cache lists
    ghost var flushed: int          // bytes returned by cache flushes, which `size` still counts

    /** A heap between operations. */
    ghost predicate Valid()
      reads this
    {
      ValidBut({})
    }

    /** As above, except that the free blocks `out` are missing from the index. */
    ghost predicate ValidBut(out: set<int>)
      reads this
    {
      Mid(out) && Coalesced(g.blocks) && Accounts() && Sound() && g.caches.loose == -1
    }

    lemma Tiled(out: set<int>)
      requires Mid(out)
      ensures TileInv(base, g.segs, g.blocks)
    {
      hide TileInv, TagsOutside, CachesRep, CachesListed, SegsRep, IndexOk, IndexedBut;
    }

    /** Free blocks in segments without cached blocks: a flush passes them by. */
    ghost predicate Aside(out: set<int>)
      reads this`g
    {
      AsideOf(g.blocks, out)
    }

    /** A heap in which the free blocks `out` are tagged free but not indexed. */
    ghost predicate Mid(out: set<int>)
      reads this`mem, this`freeBitmap, this`largeBitmap, this`restCount, this`idx, this`tidy, this`storage, this`g
    {
      BodyOk(mem, base, g) && IndexOk() && IndexedBut(idx, g.blocks, out) && storage == g.segs
    }

    /** `size` counts blocks in use (and what flushes have returned), `cached` the cached ones,
        `realSize` the segments; the peaks dominate. */
    ghost predicate Accounts()
      reads this`size, this`peak, this`cached, this`flushed, this`realSize, this`realPeak, this`g
    {
      && size == Sum(UsedOf(g.blocks)) + flushed && 0 <= flushed
      && cached == Sum(CachedOf(g.blocks)) && cached < CACHE_SIZE + MAX_SMALL
      && realSize == Sum(g.segs) && size <= peak && realSize <= realPeak
    }

    /** Segments are multiples of the unit and live payloads are as large as requested. */
    ghost predicate Sound()
      reads this`g
    {
      AnyUnit(unit) && UnitSegs(g.segs, unit) && Roomy(g.blocks)
    }

    ghost function Now(): Snapshot
      reads this
    {
      Snapshot(base, unit, mem, freeBitmap, largeBitmap, restCount, limit, realSize, realPeak, size, peak, cached, storage,
               idx, tidy, g, flushed)
    }

    /** A heap that has lost its free block `n`: the tag says free, and no list holds it. */
    ghost predicate Lost(n: int)
      reads this
    {
      ValidBut({n}) && n in g.blocks && g.blocks[n].kind.Free? && Tag(mem, n) == g.blocks[n].size && n !in idx.size
    }

    ghost predicate IsLive(b: int)
      reads this`g
    {
      b in g.blocks && g.blocks[b].kind.Live?
    }

    /** The free-block index, its bitmaps and its counter agree with memory. */
    ghost predicate IndexOk()
      reads this`mem, this`freeBitmap, this`largeBitmap, this`restCount, this`idx, this`tidy
    {
      IndexInv(mem, base, idx) && BitsOk(freeBitmap, largeBitmap, idx, tidy) && CountOk(restCount, idx)
    }

    ghost predicate Addable(b: int, s: int)
      reads this`mem, this`idx
    {
      b !in idx.size && Spread(base, idx.size[b := s]) && Tag(mem, b) == s && MIN_BLOCK <= s < WORD
    }

    // ---------- zend_mm_startup_ex, zend_mm_init ----------

    /** A new heap at address `h`; memory may hold anything. */
    constructor (h: int, blockSize: nat, m: Mem)
      requires h > 0 && h % 8 == 0 && AnyUnit(blockSize)
      ensures Valid() && base == h && unit == blockSize && g.blocks == map[] && g.segs == map[] && flushed == 0 && tidy
      ensures limit == HALF_WORD / 2 && size == 0 && cached == 0 && realSize == 0
    {
      base, unit, mem := h, blockSize, m;
      storage := map[];
      realSize, realPeak, size, peak, cached := 0, 0, 0, 0, 0;
      limit := HALF_WORD / 2;
      freeBitmap, largeBitmap, restCount := 0, 0, 0;
      idx := NoFree();
      tidy := true;
      flushed := 0;
      g := Body(map[], map[], [], Caches(seq(NUM_BUCKETS, _ => []), -1, 0));
      new;
      InitSlots();
      EmptyHeap(mem, base);
      hide BodyOk, IndexInv, BitsOk, CountOk, AnyUnit;
      EmptyAccounts();
    }

    /** Empty buckets, tries, caches, rest list and segment list. */
    method InitSlots()
      modifies this`mem
      ensures SlotsEmpty(mem, base)
    {
      hide Wr;
      mem := Wr(mem, SegmentsSlot(base), 0);
      WordsWritten();
      var i := 0;
      while i < NUM_BUCKETS
        invariant 0 <= i <= NUM_BUCKETS && Rd(mem, SegmentsSlot(base)) == 0 && CachesEmpty(mem, base, i)
      {
        mem := Wr(mem, CacheSlot(base, i), 0);
        i := i + 1;
      }
      i := 0;
      while i < NUM_BUCKETS
        invariant 0 <= i <= NUM_BUCKETS && Rd(mem, SegmentsSlot(base)) == 0 && CachesEmpty(mem, base, NUM_BUCKETS)
        invariant BucketsEmpty(mem, base, i)
      {
        var p := SmallHead(base, i);
        mem := Wr(mem, p + 24, p);
        mem := Wr(mem, p + 16, p);
        mem := Wr(mem, LargeSlot(base, i), 0);
        i := i + 1;
      }
      mem := Wr(mem, RestHead(base) + 16, RestHead(base));
      mem := Wr(mem, RestHead(base) + 24, RestHead(base));
    }

    // ---------- zend_set_memory_limit, zend_memory_usage ----------

    method SetLimit(n: nat)
      requires Valid()
      modifies this`limit
      ensures Valid() && unit <= limit && (limit == n || (n < unit && limit == unit))
    {
      hide BodyOk, IndexInv, BitsOk, CountOk, IndexedBut, Coalesced, Sum, UsedOf, CachedOf, Roomy, AnyUnit;
      limit := if n >= unit then n else unit;
    }

    /** The bytes in segments, or the bytes in live blocks (plus what flushes have given back). */
    method MemoryUsage(realUsage: bool) returns (n: int)
      requires Valid()
      ensures realUsage ==> n == Sum(g.segs)
      ensures !realUsage ==> n == Sum(LiveOf(g.blocks)) + flushed
    {
      hide Mid, Coalesced, Sum, UsedOf, CachedOf, LiveOf, Roomy, AnyUnit;
      UsedSplit(g.blocks);
      if realUsage {
        n := realSize;
      } else {
        n := size;
        n := n - cached;
      }
    }

    /** A client stores into its own payload. */
    method Store(p: int, k: int, v: int)
      requires Valid() && IsLive(p - HEADER) && 0 <= k < g.blocks[p - HEADER].size - HEADER
      modifies this`mem
      ensures Valid() && LiveKept(old(mem), mem, g.blocks, g.blocks, p - HEADER)
      ensures mem == Wr(old(mem), p + k, v)
      ensures Rd(mem, p + k) == v && forall w :: w != p + k ==> Rd(mem, w) == Rd(old(mem), w)
    {
      hide BodyOk, IndexInv, BitsOk, CountOk, LiveKept, Coalesced, Sum, IndexedBut, Roomy, AnyUnit, UsedOf, CachedOf,
           Wr;
      WordWritten(mem, p + k, v);
      PayloadWrite(mem, Wr(mem, p + k, v), base, g, idx, p - HEADER);
      mem := Wr(mem, p + k, v);
    }

    // ---------- steps between index and blocks ----------

    /** A free block leaves the index; tags and payloads stay. */
    method TakeOut(b: int, ghost out: set<int>)
      requires Mid(out) && b in g.blocks && g.blocks[b].kind.Free? && b !in out
      modifies this`mem, this`freeBitmap, this`largeBitmap, this`restCount, this`idx, this`tidy
      ensures Mid(out + {b})
      ensures TakenOff(old(mem), base, old(idx), old(freeBitmap), idx, freeBitmap, b)
      ensures forall x :: LiveKept(old(mem), mem, g.blocks, g.blocks, x)
      ensures tidy == (old(tidy) && !LosesBit(old(idx), b))
    {
      hide BodyOk, IndexInv, BitsOk, CountOk, IndexFrame, RemoveFree, LiveKept, Placed, Shaped;
      IndexedFree(idx, g.blocks, out);
      ghost var x := idx;
      RemoveFromFreeList(b);
      BodyKept(old(mem), mem, base, g, x.size);
      AllLiveKept(old(mem), mem, g.blocks);
      RemovedSize(x, b);
      assert idx.size == FreeOf(g.blocks) - (out + {b});
    }

    /** A free block that is out of the index enters its list. */
    method GiveBack(b: int, ghost out: set<int>)
      requires Mid(out) && b in out && b in g.blocks && g.blocks[b].kind.Free?
      modifies this`mem, this`freeBitmap, this`largeBitmap, this`idx
      ensures Mid(out - {b}) && b in idx.loc && idx.loc[b] != InRest
      ensures FiledAs(old(idx), idx, b, g.blocks[b].size)
      ensures forall x :: LiveKept(old(mem), mem, g.blocks, g.blocks, x)
    {
      hide BodyOk, IndexInv, BitsOk, CountOk, IndexFrame, AddFree, LiveKept, FreeIn, Spread;
      ReadyToAdd(mem, base, g, idx, b, out);
      ghost var x := idx;
      AddToFreeList(b);
      AddedSize(old(mem), base, x, b, g.blocks[b].size);
      AddedLoc(old(mem), base, x, b, g.blocks[b].size);
      BodyKept(old(mem), mem, base, g, idx.size);
      AllLiveKept(old(mem), mem, g.blocks);
    }

    /** A free block that is out of the index enters the rest list. */
    method GiveRest(b: int, ghost out: set<int>)
      requires Mid(out) && b in out && b in g.blocks && g.blocks[b].kind.Free?
      modifies this`mem, this`freeBitmap, this`largeBitmap, this`restCount, this`idx
      ensures Mid(out - {b}) && b in idx.loc && idx.loc[b] == InRest
      ensures old(restCount) < MAX_REST ==> JoinedRest(old(idx), old(freeBitmap), idx, freeBitmap, b, g.blocks[b].size)
      ensures forall x :: LiveKept(old(mem), mem, g.blocks, g.blocks, x)
    {
      hide BodyOk, IndexInv, BitsOk, CountOk, IndexFrame, LiveKept, FreeIn, Spread, Evicted, JoinedRest;
      ReadyToAdd(mem, base, g, idx, b, out);
      AddToRestList(b);
      NewInRest(mem, base, idx, b);
      BodyKept(old(mem), mem, base, g, idx.size);
      AllLiveKept(old(mem), mem, g.blocks);
    }

    /** ZEND_MM_BLOCK once or twice: the run from `a` of `total` bytes becomes a block of `s` bytes
        and, if anything is left, a second one. */
    method Recut(a: int, total: int, s: int, t1: int, t2: int, ghost k1: Kind, ghost k2: Kind, ghost out: set<int>,
        ghost aside: set<int>)
      requires BodyBut(mem, base, g, a, a + total) && IndexOk() && IndexedBut(idx, g.blocks, out + aside)
      requires storage == g.segs
      requires CanCarve(g.blocks, a, a + total, s) && RunReady(g.blocks, idx, a, a + total)
      requires (forall c :: c in out ==> a <= c < a + total) && (forall c :: c in aside ==> !(a <= c < a + total))
      requires t1 == TypeOf(k1) && t2 == TypeOf(k2) && !k1.Guard? && !k2.Guard? && !k1.Cached? && !k2.Cached?
      modifies this`mem, this`g
      ensures g == old(g).(blocks := Carve(old(g).blocks, a, a + total, s, k1, k2))
      ensures Mid(NewFree(a, a + total, s, k1, k2) + aside)
      ensures mem == CarveWrites(old(mem), a, a + total, s, t1, t2)
      ensures forall c :: c in old(g).blocks && !(a <= c < a + total) ==> SamePayload(old(mem), mem, old(g).blocks, c)
    {
      hide BodyBut, IndexInv, BitsOk, CountOk, Carve, NewFree, RunReady, Wr, SamePayload, IndexedBut;
      IndexedFree(idx, g.blocks, out + aside);
      CarveBody(base, g, mem, idx, a, a + total, s, k1, k2);
      CarveFree(g.blocks, idx, a, a + total, s, k1, k2, out, aside);
      mem := Wr(mem, a, s + t1);
      mem := Wr(mem, a + s + 8, s + t1);
      if s != total {
        mem := Wr(mem, a + s, total - s + t2);
        mem := Wr(mem, a + s + (total - s) + 8, total - s + t2);
      }
      g := g.(blocks := Carve(g.blocks, a, a + total, s, k1, k2));
    }

    // ---------- zend_mm_del_segment ----------

    method DelSegment(seg: int, ghost out: set<int>, ghost aside: set<int>)
      requires Mid(out + aside) && seg in g.segs
      requires forall c :: c in g.blocks && g.blocks[c].seg == seg ==> c !in idx.size && !g.blocks[c].kind.Cached?
      requires forall c :: c in out ==> c in g.blocks && g.blocks[c].seg == seg
      requires forall c :: c in aside && c in g.blocks ==> g.blocks[c].seg != seg
      modifies this`mem, this`realSize, this`storage, this`g
      ensures Mid(aside) && g.caches == old(g).caches
      ensures g.segs == old(g).segs - {seg} && g.blocks == DropSegment(old(g).blocks, seg)
      ensures realSize == old(realSize) - old(g).segs[seg]
      ensures forall c :: c in old(g).blocks && old(g).blocks[c].seg != seg ==> SamePayload(old(mem), mem, old(g).blocks, c)
    {
      hide TileInv, TagsOutside, CachesRep, CachesListed, IndexInv, BitsOk, CountOk, IndexedBut, SamePayload,
           DropSegment, FreeIn, Wr;
      var p := SegmentsSlot(base);
      ghost var k := 0;
      SegPlace(mem, base, g, seg);
      ghost var at :| 0 <= at < |g.order| && g.order[at] == seg;
      assert Rd(mem, SlotAt(base, g.order, 0)) == NextAt(g.order, 0);
      while Rd(mem, p) != seg
        invariant 0 <= k <= at && p == SlotAt(base, g.order, k) && Rd(mem, p) == NextAt(g.order, k)
        decreases at - k
      {
        assert Rd(mem, SlotAt(base, g.order, k + 1)) == NextAt(g.order, k + 1);
        p := Rd(mem, p) + 8;
        k := k + 1;
      }
      assert g.order[k] == seg;
      IndexedFree(idx, g.blocks, out + aside);
      DropBody(mem, Wr(mem, p, Rd(mem, seg + 8)), base, g, idx, k);
      DropIndexed(idx, g.blocks, seg, out, aside);
      assert Rd(mem, seg) == g.segs[seg];
      HeaderSize(mem, base, g, k);
      mem := Wr(mem, p, Rd(mem, seg + 8));
      realSize := realSize - Rd(mem, seg);
      storage := storage - {seg};
      g := Body(g.segs - {seg}, DropSegment(g.blocks, seg), Drop(g.order, k), g.caches);
    }

    // ---------- _zend_mm_free_int ----------

    /** Free the block with payload `p`; a null pointer is ignored. */
    method FreeInt(p: int)
      requires Valid() && (p != 0 ==> IsLive(p - HEADER))
      modifies this`mem, this`freeBitmap, this`largeBitmap, this`restCount, this`idx, this`tidy, this`realSize,
               this`size, this`cached, this`storage, this`g
      ensures Valid() && flushed == old(flushed)
      ensures p == 0 ==> mem == old(mem) && g == old(g)
      ensures p != 0 ==> !IsLive(p - HEADER)
      ensures p != 0 ==> var b, s := p - HEADER, old(g).blocks[p - HEADER].size;
                if s < MAX_SMALL && old(cached) < CACHE_SIZE then b in g.blocks && g.blocks[b].kind.Cached? && g.blocks[b].size == s
                else CachedOf(g.blocks) == CachedOf(old(g).blocks)
      ensures LiveKept(old(mem), mem, old(g).blocks, g.blocks, p - HEADER)
      ensures NoNewLive(old(g).blocks, g.blocks, p - HEADER)
      ensures if p == 0 then Now() == old(Now()) else FreeEffect(old(Now()), Now(), p - HEADER)
    {
      hide TileInv, TagsOutside, CachesRep, CachesListed, SegsRep, IndexInv, BitsOk, CountOk, IndexedBut, LiveKept,
           NoNewLive, Coalesced, Sum, UsedOf, CachedOf, Roomy, AnyUnit, ReleasedBody, CachePut;
      if p == 0 {
        SelfKept(mem, g.blocks, p - HEADER);
        return;
      }
      var b := p - HEADER;
      TagReads(base, g.segs, mem, g.blocks, b);
      var sz := Tag(mem, b) - Tag(mem, b) % 4;
      if Small(sz) && cached < CACHE_SIZE {
        CachePush(b, sz);
      } else {
        ReleaseInt(b, sz);
      }
    }

    /** The block is not cached: it is released and no longer counted. */
    method ReleaseInt(b: int, sz: int)
      requires Valid() && IsLive(b) && sz == g.blocks[b].size && !(sz < MAX_SMALL && cached < CACHE_SIZE)
      modifies this`mem, this`freeBitmap, this`largeBitmap, this`restCount, this`idx, this`tidy, this`realSize,
               this`size, this`storage, this`g
      ensures Valid() && !IsLive(b) && CachedOf(g.blocks) == CachedOf(old(g).blocks)
      ensures LiveKept(old(mem), mem, old(g).blocks, g.blocks, b) && NoNewLive(old(g).blocks, g.blocks, b)
      ensures FreeEffect(old(Now()), Now(), b)
    {
      hide Mid, LiveKept, NoNewLive, Coalesced, Sum, UsedOf, CachedOf, Roomy, AnyUnit, UnitSegs, ReleasedBody, CachePut;
      ghost var b0, v := g.blocks, Now();
      LiveBounds(b);
      size := size - sz;
      ReleaseBlock(b, sz);
      ReleasedAlike(v, v.(size := size), Now(), b);
      NotCached(b0, b);
      SumRemove(UsedOf(b0), b);
      UnitSegsFewer(old(g).segs, g.segs, unit);
      RoomyKept(old(mem), mem, b0, g.blocks, b);
    }

    /** The block stays tagged as used and goes to the front of the cache list of its size. */
    method CachePush(b: int, sz: int)
      requires Valid() && IsLive(b) && sz == g.blocks[b].size && sz < MAX_SMALL && cached + sz < CACHE_SIZE + MAX_SMALL
      modifies this`mem, this`cached, this`g
      ensures Valid() && !IsLive(b) && b in g.blocks && g.blocks[b].kind.Cached? && g.blocks[b].size == sz
      ensures cached == old(cached) + sz && Rd(mem, CacheSlot(base, BucketIndex(sz))) == b
      ensures LiveKept(old(mem), mem, old(g).blocks, g.blocks, b) && NoNewLive(old(g).blocks, g.blocks, b)
      ensures CachePut(old(Now()), Now(), b)
    {
      hide BodyOk, IndexInv, BitsOk, CountOk, IndexedBut, LiveKept, NoNewLive, Coalesced, Wr, Sum, AnyUnit, Rekind,
           UsedOf, CachedOf, Roomy, FreeOf;
      var index := BucketIndex(sz);
      PushCached(mem, base, g, idx, b);
      RekindCoalesced(g.blocks, b, Cached);
      RekindSums(g.blocks, b, Cached);
      NotCached(g.blocks, b);
      SumAdd(CachedOf(g.blocks), b, sz);
      RekindAt(g.blocks, b, Cached);
      RoomyKept(mem, Wr(Wr(mem, b + 16, Rd(mem, CacheSlot(base, index))), CacheSlot(base, index), b),
                g.blocks, Rekind(g.blocks, b, Cached), b);
      mem := Wr(mem, b + 16, Rd(mem, CacheSlot(base, index)));
      mem := Wr(mem, CacheSlot(base, index), b);
      cached := cached + sz;
      g := g.(blocks := Rekind(g.blocks, b, Cached), caches := Pushed(g.caches, index, b));
    }

    /** The block and its free neighbours become one free block, or leave with their segment. */
    method ReleaseBlock(b: int, sz: int)
      requires Mid({}) && Coalesced(g.blocks) && IsLive(b) && sz == g.blocks[b].size
      modifies this`mem, this`freeBitmap, this`largeBitmap, this`restCount, this`idx, this`tidy, this`realSize,
               this`storage, this`g
      ensures Mid({}) && Coalesced(g.blocks) && !IsLive(b)
      ensures LiveKept(old(mem), mem, old(g).blocks, g.blocks, b) && NoNewLive(old(g).blocks, g.blocks, b)
      ensures UsedOf(g.blocks) == UsedOf(old(g).blocks) - {b} && CachedOf(g.blocks) == CachedOf(old(g).blocks)
      ensures g.caches == old(g).caches
      ensures Sum(g.segs) - realSize == old(Sum(g.segs) - realSize) && realSize <= old(realSize)
      ensures forall s :: s in g.segs ==> s in old(g).segs && g.segs[s] == old(g).segs[s]
      ensures ReleasedBody(old(Now()), Now(), b)
    {
      hide TileInv, TagsOutside, CachesRep, CachesListed, SegsRep, IndexInv, BitsOk, CountOk, LiveKept, NoNewLive,
           Coalesced, Carve, DropSegment, RunReady, Sum, IndexedBut;
      ghost var b0, m0 := g.blocks, mem;
      var a, total, out := TakeNeighbours(b, sz);
      Neighbourhood(base, g.segs, b0, b, a, a + total);
      FinishRelease(a, total, b, out, m0);
    }

    /** The neighbours of a live block are not among blocks set aside in other segments. */
    lemma Around(b: int, aside: set<int>)
      requires Mid(aside) && IsLive(b) && Elsewhere(g.blocks, aside, g.blocks[b].seg)
      ensures b - g.blocks[b].prev <= b < b + g.blocks[b].size
      ensures b + g.blocks[b].size !in aside && b - g.blocks[b].prev !in aside
    {
      hide TileInv, TagsOutside, CachesRep, CachesListed, SegsRep, IndexOk, IndexedBut;
      Links(base, g.segs, g.blocks, b);
    }

    /** The blocks taken are those of the run. */
    lemma RunAround(b: int, a: int, e: int, out: set<int>, mid: set<int>)
      requires Mid(mid) && Coalesced(g.blocks) && IsLive(b) && a == RunStart(g.blocks, b) && e == RunEnd(g.blocks, b)
      requires var n := b + g.blocks[b].size;
               forall c :: c in out <==> (c == a && a != b) || (c == n && n in g.blocks && g.blocks[n].kind.Free?)
      ensures forall c :: c in out <==> c in g.blocks && a <= c < e && c != b
    {
      hide TileInv, TagsOutside, CachesRep, CachesListed, SegsRep, IndexOk, IndexedBut, Coalesced;
      Neighbourhood(base, g.segs, g.blocks, b, a, e);
      Links(base, g.segs, g.blocks, b);
      if b + g.blocks[b].size in out { Bounds(base, g.segs, g.blocks, b + g.blocks[b].size); }
    }

    /** A free block behind `b` leaves the index. */
    method TakeBehind(b: int, sz: int, ghost out: set<int>) returns (more: int, ghost out': set<int>)
      requires Mid(out) && IsLive(b) && sz == g.blocks[b].size && b + sz !in out
      modifies this`mem, this`freeBitmap, this`largeBitmap, this`restCount, this`idx, this`tidy
      ensures Mid(out') && LiveKept(old(mem), mem, g.blocks, g.blocks, b) && b + sz in g.blocks
      ensures if g.blocks[b + sz].kind.Free? then more == g.blocks[b + sz].size && out' == out + {b + sz} else more == 0 && out' == out
    {
      hide TileInv, TagsOutside, CachesRep, CachesListed, SegsRep, IndexInv, BitsOk, CountOk, LiveKept, IndexedBut,
           TakenOff, LosesBit;
      SelfKept(mem, g.blocks, b);
      Links(base, g.segs, g.blocks, b);
      var next := b + sz;
      TagReads(base, g.segs, mem, g.blocks, next);
      more, out' := 0, out;
      if Tag(mem, next) % 2 == 0 {
        more := Tag(mem, next);
        TakeOut(next, out);
        out' := out + {next};
      }
    }

    /** A free block in front of `b` leaves the index. */
    method TakeBefore(b: int, ghost out: set<int>) returns (a: int, more: int, ghost out': set<int>)
      requires Mid(out) && IsLive(b) && b - g.blocks[b].prev !in out
      modifies this`mem, this`freeBitmap, this`largeBitmap, this`restCount, this`idx, this`tidy
      ensures Mid(out') && LiveKept(old(mem), mem, g.blocks, g.blocks, b) && a in g.blocks && a + more == b
      ensures a == if FreeBefore(g.blocks, b) then b - g.blocks[b].prev else b
      ensures out' == if a == b then out else out + {a}
    {
      hide TileInv, TagsOutside, CachesRep, CachesListed, SegsRep, IndexInv, BitsOk, CountOk, LiveKept, IndexedBut,
           TakenOff, LosesBit;
      SelfKept(mem, g.blocks, b);
      TagReads(base, g.segs, mem, g.blocks, b);
      a, more, out' := b, 0, out;
      if PrevTag(mem, b) % 2 == 0 {
        a := b - (PrevTag(mem, b) - PrevTag(mem, b) % 4);
        Links(base, g.segs, g.blocks, a);
        TagReads(base, g.segs, mem, g.blocks, a);
        BeforeEnds(base, g.segs, g.blocks, b);
        more := Tag(mem, a);
        TakeOut(a, out);
        out' := out + {a};
      }
    }

    /** The free neighbours of a block leave the index: first the one behind, then the one in front. */
    method TakeNeighbours(b: int, sz: int) returns (a: int, total: int, ghost out: set<int>)
      requires Mid({}) && Coalesced(g.blocks) && IsLive(b) && sz == g.blocks[b].size
      modifies this`mem, this`freeBitmap, this`largeBitmap, this`restCount, this`idx, this`tidy
      ensures Mid(out) && LiveKept(old(mem), mem, g.blocks, g.blocks, b)
      ensures a + total == RunEnd(g.blocks, b) && a == RunStart(g.blocks, b)
      ensures forall c :: c in out <==> c in g.blocks && a <= c < a + total && c != b
    {
      hide Mid, Coalesced, LiveKept;
      ghost var b0, m0 := g.blocks, mem;
      Around(b, {});
      var more, front;
      more, out := TakeBehind(b, sz, {});
      ghost var m1 := mem;
      a, front, out := TakeBefore(b, out);
      total := sz + more + front;
      LiveKeptTrans(m0, m1, mem, b0, b0, b0, b);
      RunAround(b, a, a + total, out, out);
    }

    /** The end of a release: the whole run is free, and none of it is indexed. */
    method FinishRelease(a: int, total: int, ghost b: int, ghost out: set<int>, ghost m0: Mem)
      requires Mid(out) && Coalesced(g.blocks) && IsLive(b) && FreeRun(g.blocks, a, a + total, b)
      requires forall c :: c in out <==> c in g.blocks && a <= c < a + total && c != b
      requires g.blocks[a].seg == g.blocks[a + total].seg == g.blocks[b].seg && total >= MIN_BLOCK && total % 8 == 0
      requires !g.blocks[a + total].kind.Free?
      requires g.blocks[a].prev != 0 && a - g.blocks[a].prev in g.blocks ==> !g.blocks[a - g.blocks[a].prev].kind.Free?
      requires LiveKept(m0, mem, g.blocks, g.blocks, b)
      modifies this`mem, this`freeBitmap, this`largeBitmap, this`idx, this`realSize, this`storage, this`g
      ensures Mid({}) && Coalesced(g.blocks) && !IsLive(b)
      ensures LiveKept(m0, mem, old(g).blocks, g.blocks, b) && NoNewLive(old(g).blocks, g.blocks, b)
      ensures UsedOf(g.blocks) == UsedOf(old(g).blocks) - {b} && CachedOf(g.blocks) == CachedOf(old(g).blocks)
      ensures g.caches == old(g).caches
      ensures Sum(g.segs) - realSize == old(Sum(g.segs) - realSize) && realSize <= old(realSize)
      ensures forall s :: s in g.segs ==> s in old(g).segs && g.segs[s] == old(g).segs[s]
      ensures if old(g).blocks[a].prev == 0 && old(g).blocks[a + total].kind.Guard? then Dropped(old(Now()), Now(), a - HEADER)
              else Merged(old(Now()), Now(), a, a + total)
    {
      hide TileInv, TagsOutside, CachesRep, CachesListed, SegsRep, IndexInv, BitsOk, CountOk, LiveKept, NoNewLive,
           Coalesced, Carve, DropSegment, RunReady, Sum, SamePayload;
      var e := a + total;
      TagReads(base, g.segs, mem, g.blocks, a);
      TagReads(base, g.segs, mem, g.blocks, e);
      RunOfFree(g.blocks, idx, a, e, b, out);
      if PrevTag(mem, a) == FIRST_MARK && Tag(mem, e) % 4 == 3 {
        DropRun(a, total, b, out, m0);
      } else {
        FreeWholeRun(a, total, b, out, m0);
      }
    }

    /** The run is all of its segment, which goes back to the storage. */
    method DropRun(a: int, total: int, ghost b: int, ghost out: set<int>, ghost m0: Mem)
      requires Mid(out) && Coalesced(g.blocks) && IsLive(b) && FreeRun(g.blocks, a, a + total, b)
      requires forall c :: c in out <==> c in g.blocks && a <= c < a + total && c != b
      requires g.blocks[a].seg == g.blocks[a + total].seg == g.blocks[b].seg && RunReady(g.blocks, idx, a, a + total)
      requires g.blocks[a].prev == 0 && g.blocks[a + total].kind.Guard? && LiveKept(m0, mem, g.blocks, g.blocks, b)
      modifies this`mem, this`realSize, this`storage, this`g
      ensures Mid({}) && Coalesced(g.blocks) && !IsLive(b)
      ensures LiveKept(m0, mem, old(g).blocks, g.blocks, b) && NoNewLive(old(g).blocks, g.blocks, b)
      ensures UsedOf(g.blocks) == UsedOf(old(g).blocks) - {b} && CachedOf(g.blocks) == CachedOf(old(g).blocks)
      ensures g.caches == old(g).caches
      ensures Sum(g.segs) - realSize == old(Sum(g.segs) - realSize) && realSize <= old(realSize)
      ensures forall s :: s in g.segs ==> s in old(g).segs && g.segs[s] == old(g).segs[s]
      ensures Dropped(old(Now()), Now(), a - HEADER)
    {
      hide TileInv, TagsOutside, CachesRep, CachesListed, SegsRep, IndexInv, BitsOk, CountOk, LiveKept, NoNewLive,
           Coalesced, DropSegment, RunReady, Sum, SamePayload, UsedOf, CachedOf;
      ghost var e := a + total;
      ghost var b0, m1, g0 := g.blocks, mem, g;
      WholeSegment(base, g.segs, b0, a, e);
      ghost var seg := b0[a].seg;
      IndexedFree(idx, b0, out);
      WholeReady(b0, idx, a, e, seg);
      forall c | c in out ensures b0[c].seg == seg { RunSegment(base, g.segs, b0, a, e, c); }
      assert out + {} == out;
      DelSegment(a - HEADER, out, {});
      DropLive(g0, m1, mem, seg, b);
      forall c | c in b0 ensures FreeApart(b0, c) { ApartAt(b0, c); }
      DropCoalesced(b0, seg);
      SumRemove(g0.segs, seg);
      SegmentOutside(base, g0.segs, b0, seg);
      LiveKeptTrans(m0, m1, mem, b0, b0, g.blocks, b);
    }

    /** The run becomes one free block. */
    method FreeWholeRun(a: int, total: int, ghost b: int, ghost out: set<int>, ghost m0: Mem)
      requires Mid(out) && Coalesced(g.blocks) && IsLive(b) && FreeRun(g.blocks, a, a + total, b)
      requires forall c :: c in out <==> c in g.blocks && a <= c < a + total && c != b
      requires g.blocks[a].seg == g.blocks[a + total].seg && RunReady(g.blocks, idx, a, a + total) && total >= MIN_BLOCK
      requires total % 8 == 0
      requires CarveKeepsApart(g.blocks, a, a + total, total, Free, Free) && LiveKept(m0, mem, g.blocks, g.blocks, b)
      modifies this`mem, this`freeBitmap, this`largeBitmap, this`idx, this`g
      ensures Mid({}) && Coalesced(g.blocks) && !IsLive(b)
      ensures LiveKept(m0, mem, old(g).blocks, g.blocks, b) && NoNewLive(old(g).blocks, g.blocks, b)
      ensures UsedOf(g.blocks) == UsedOf(old(g).blocks) - {b} && CachedOf(g.blocks) == CachedOf(old(g).blocks)
      ensures g.caches == old(g).caches
      ensures g.segs == old(g).segs
      ensures Merged(old(Now()), Now(), a, a + total)
    {
      hide TileInv, TagsOutside, CachesRep, CachesListed, SegsRep, IndexInv, BitsOk, CountOk, LiveKept, NoNewLive,
           Coalesced, Carve, RunReady, SamePayload, UsedOf, CachedOf, IndexedBut;
      ghost var e := a + total;
      ghost var b0, m1, g0 := g.blocks, mem, g;
      BodyRun(mem, base, g, a, e);
      assert out + {} == out;
      Recut(a, total, total, 0, 0, Free, Free, out, {});
      CarveLive(g0, m1, mem, a, e, total, Free, Free, b);
      CarveUsed(b0, a, e, total, Free, b);
      CoalescedRun(b0, a, e);
      CarveCoalesced(base, g0.segs, b0, a, e, total, Free, Free);
      CarveAt(b0, a, e, total, Free, Free, a);
      ghost var m2 := mem;
      assert NewFree(a, e, total, Free, Free) + {} == {a};
      GiveBack(a, {a});
      assert {a} - {a} == {};
      LiveKeptTrans(m1, m2, mem, b0, g.blocks, g.blocks, b);
      LiveKeptTrans(m0, m1, mem, b0, b0, g.blocks, b);
    }

    // ---------- placing a block ----------

    /** Index and small bitmap after the remainder of `left` bytes at `a` has been filed: a remainder for
        the rest list leaves the bitmap alone unless the list was full. */
    ghost predicate PlacedIndex(x: Index, fb: nat, rc: int, a: int, left: int, rest: bool)
      reads this`freeBitmap, this`idx
    {
      && (left < MIN_BLOCK ==> idx == x && freeBitmap == fb)
      && (!rest && left >= MIN_BLOCK ==> FiledAs(x, idx, a, left))
      && (rest && left >= MIN_BLOCK && rc < MAX_REST ==> JoinedRest(x, fb, idx, freeBitmap, a, left))
    }

    /** The run of `total` bytes at `b`, out of the index, in which only `u` may be in use. */
    ghost predicate Placeable(b: int, total: int, u: int, out: set<int>)
      reads this`mem, this`freeBitmap, this`largeBitmap, this`restCount, this`idx, this`tidy, this`storage, this`g
    {
      && BodyBut(mem, base, g, b, b + total) && IndexOk() && IndexedBut(idx, g.blocks, out) && storage == g.segs
      && FreeRun(g.blocks, b, b + total, u) && RunReady(g.blocks, idx, b, b + total)
      && (forall c :: c in out ==> b <= c < b + total)
      && g.blocks[b].seg == g.blocks[b + total].seg && total % 8 == 0
      && CoalescedBut(g.blocks, b, b + total) && !g.blocks[b + total].kind.Free?
    }

    /** The run becomes a used block of `trueSize` bytes, or of all of it when too little would be
        left; what is left goes to the free lists or to the rest list. */
    method Place(b: int, total: int, trueSize: int, rest: bool, ghost req: int, ghost u: int, ghost out: set<int>)
      returns (s: int)
      requires Placeable(b, total, u, out) && trueSize % 8 == 0 && MIN_BLOCK <= trueSize <= total
      modifies this`mem, this`freeBitmap, this`largeBitmap, this`restCount, this`idx, this`g
      ensures Mid({}) && Coalesced(g.blocks) && g == old(g).(blocks := g.blocks)
      ensures s == if total - trueSize < MIN_BLOCK then total else trueSize
      ensures s != total ==> b + s in idx.loc && (idx.loc[b + s] == InRest <==> rest)
      ensures b in g.blocks && g.blocks[b].size == s && g.blocks[b].kind == Live(req)
      ensures CutOff(old(g).blocks, g.blocks, b, b + total, s, Live(req))
      ensures UsedOf(g.blocks) == (UsedOf(old(g).blocks) - {u})[b := s] && CachedOf(g.blocks) == CachedOf(old(g).blocks)
      ensures LiveKept(old(mem), mem, old(g).blocks, g.blocks, u) && NoNewLive(old(g).blocks, g.blocks, b)
      ensures forall w :: b + HEADER <= w < b + s ==> Rd(mem, w) == Rd(old(mem), w)
      ensures PlacedIndex(old(idx), old(freeBitmap), old(restCount), b + s, total - s, rest)
    {
      hide BodyBut, IndexInv, BitsOk, CountOk, LiveKept, NoNewLive, Coalesced, CoalescedBut, Carve, RunReady,
           SamePayload, UsedOf, CachedOf, IndexedBut, Wr, CarveWrites;
      ghost var b0, m0, g0, e := g.blocks, mem, g, b + total;
      s := if total - trueSize < MIN_BLOCK then total else trueSize;
      BodyTiled(mem, base, g, b, e);
      assert out + {} == out;
      Recut(b, total, s, 1, 0, Live(req), Free, out, {});
      ghost var m1, b1 := mem, g.blocks;
      CarveLive(g0, m0, m1, b, e, s, Live(req), Free, u);
      CarveUsed(b0, b, e, s, Live(req), u);
      CarveCoalesced(base, g0.segs, b0, b, e, s, Live(req), Free);
      CarveAt(b0, b, e, s, Live(req), Free, b);
      CarveAt(b0, b, e, s, Live(req), Free, b + s);
      CarveKeepsPayload(m0, b, e, s, 1, 0);
      if s != total {
        assert NewFree(b, e, s, Live(req), Free) + {} == {b + s};
        if rest {
          GiveRest(b + s, {b + s});
        } else {
          GiveBack(b + s, {b + s});
        }
        assert {b + s} - {b + s} == {};
        LiveKeptTrans(m0, m1, mem, b0, b1, b1, u);
        PayloadWords(m1, mem, b1, b);
      } else {
        assert NewFree(b, e, s, Live(req), Free) + {} == {};
      }
    }

    /** The accounts after a used block has grown from `before` bytes to `after`. */
    method Charge(before: int, after: int)
      modifies this`size, this`peak
      ensures size == old(size) + after - before && peak == if old(peak) < size then size else old(peak)
    {
      size := size + after - before;
      if peak < size {
        peak := size;
      }
    }

    // ---------- _zend_mm_alloc_int ----------

    /** Allocate `req` bytes; `hint` is where the storage would put a new segment. */
    method AllocInt(req: nat, hint: int) returns (r: Outcome)
      requires Valid() && req < WORD
      modifies this`mem, this`freeBitmap, this`largeBitmap, this`restCount, this`idx, this`tidy, this`realSize,
               this`realPeak, this`size, this`peak, this`cached, this`storage, this`g, this`flushed
      ensures Valid()
      ensures r.Ptr? ==> Granted(old(mem), mem, old(g).blocks, g.blocks, r.address, req) && flushed == old(flushed)
      ensures r.Ptr? ==> realSize == old(realSize) || realSize <= limit
      ensures r.Ptr? && old(g).blocks == map[] ==> NewSegmentFor(old(g), g, r.address, hint, TrueSize(req), unit, req)
      ensures r.Ptr? && req + HEADER + 7 < WORD && MustOpen(old(Now()), TrueSize(req)) ==>
                && NewSegmentFor(old(g), g, r.address, hint, TrueSize(req), unit, req) && tidy == old(tidy)
                && PlacedIndex(old(idx), old(freeBitmap), old(restCount), r.address - HEADER + TrueSize(req),
                               SegmentSize(TrueSize(req), unit) - 2 * HEADER - TrueSize(req), Oversize(TrueSize(req), unit))
      ensures AllocOutcome(old(Now()), req, hint, r)
      ensures !r.Ptr? ==> LiveKept(old(mem), mem, old(g).blocks, g.blocks, 0) && NoNewLive(old(g).blocks, g.blocks, 0)
      ensures !r.Ptr? && req + HEADER + 7 < WORD ==> cached == 0
      ensures AllocEffect(old(Now()), Now(), req, hint, r)
    {
      hide NewSegmentFor, Refused, RegionFree, SegmentSize, TileInv, TagsOutside, CachesRep, CachesListed, SegsRep,
           IndexInv, BitsOk, CountOk, LiveKept, NoNewLive, Coalesced, Sum, IndexedBut, Roomy, NothingFits, Picked,
           Granted, AnyUnit, UsedOf, CachedOf, PlacedIndex, CutFound, FoundFit;
      var trueSize := TrueSize(req);
      TrueSizeSpec(req);
      if Small(trueSize) {
        var index := BucketIndex(trueSize);
        if trueSize < req {
          SelfKept(mem, g.blocks, 0);
          return MemoryError;
        }
        if Rd(mem, CacheSlot(base, index)) != 0 {
          var p := AllocCached(index, trueSize, req);
          return Ptr(p);
        }
      }
      var b := FindFree(mem, base, freeBitmap, largeBitmap, trueSize, realSize >= (limit - unit) % WORD, idx, tidy);
      if b == 0 {
        r := AllocSegment(trueSize, req, hint);
      } else {
        FoundFree(idx, g.blocks, freeBitmap, realSize >= (limit - unit) % WORD, trueSize, b);
        var p := AllocFound(b, trueSize, req);
        r := Ptr(p);
      }
    }

    /** The first cached block of the size is handed out again. */
    method AllocCached(index: int, trueSize: int, ghost req: int) returns (p: int)
      requires Valid() && 0 <= index < NUM_BUCKETS && trueSize == MIN_BLOCK + 8 * index
      requires Rd(mem, CacheSlot(base, index)) != 0
      requires 0 <= req && req + HEADER <= trueSize
      modifies this`mem, this`cached, this`g
      ensures Valid() && Granted(old(mem), mem, old(g).blocks, g.blocks, p, req)
      ensures p - HEADER in old(g).blocks
      ensures g.blocks[p - HEADER].size == trueSize && cached == old(cached) - trueSize
      ensures p == Rd(old(mem), CacheSlot(base, index)) + HEADER
      ensures CacheTaken(old(Now()), Now(), trueSize, p - HEADER, req)
    {
      hide BodyBut, IndexInv, BitsOk, CountOk, IndexedBut, LiveKept, NoNewLive, Coalesced, Wr, Sum, AnyUnit, Rekind,
           UsedOf, CachedOf, Roomy, FreeOf;
      var b := Rd(mem, CacheSlot(base, index));
      PopCached(mem, base, g, idx, index, req);
      RekindCoalesced(g.blocks, b, Live(req));
      RekindSums(g.blocks, b, Live(req));
      CachedIn(g.blocks, b);
      SumRemove(CachedOf(g.blocks), b);
      RekindAt(g.blocks, b, Live(req));
      BodyTiled(mem, base, g, 0, 0);
      PayloadAligned(base, g.segs, g.blocks, b);
      ghost var b1 := Rekind(g.blocks, b, Live(req));
      RoomyKept(mem, Wr(mem, CacheSlot(base, index), PrevF(mem, b)), g.blocks, b1, b);
      mem := Wr(mem, CacheSlot(base, index), PrevF(mem, b));
      cached := cached - trueSize;
      g := g.(blocks := b1, caches := Popped(g.caches, index));
      p := b + HEADER;
    }

    /** A block found in the index is taken and cut to size. */
    method AllocFound(b: int, trueSize: int, ghost req: int) returns (p: int)
      requires Valid() && b in g.blocks && g.blocks[b].kind.Free? && g.blocks[b].size >= trueSize
      requires trueSize % 8 == 0 && trueSize >= MIN_BLOCK && 0 <= req && req + HEADER <= trueSize
      modifies this`mem, this`freeBitmap, this`largeBitmap, this`restCount, this`idx, this`tidy, this`size, this`peak,
               this`g
      ensures Valid() && Granted(old(mem), mem, old(g).blocks, g.blocks, p, req) && p == b + HEADER
      ensures CutFound(old(g).blocks, g.blocks, b, trueSize, req)
      ensures FoundTaken(old(Now()), Now(), trueSize, b, req)
    {
      hide Carve, TileInv, TagsOutside, CachesRep, CachesListed, SegsRep, IndexInv, BitsOk, CountOk, LiveKept,
           NoNewLive, Coalesced, Placeable, Sum, IndexedBut, Roomy, AnyUnit, UsedOf, CachedOf, PlacedIndex, UnitSegs;
      ghost var b0, m0 := g.blocks, mem;
      var total := TakeFound(b);
      ghost var m1 := mem;
      var s := Place(b, total, trueSize, false, req, b, {b});
      Charge(0, s);
      GrownTotal(b0, g.blocks, b, s);
      LiveKeptTrans(m0, m1, mem, b0, b0, g.blocks, b);
      CutFoundFrom(b0, g.blocks, b, trueSize, s, req);
      RoomyKept(m0, mem, b0, g.blocks, b);
      PayloadAligned(base, g.segs, g.blocks, b);
      p := b + HEADER;
    }

    /** The block leaves the index, after the check of its boundary tags. */
    method TakeFound(b: int) returns (total: int)
      requires Mid({}) && Coalesced(g.blocks) && b in g.blocks && g.blocks[b].kind.Free?
      modifies this`mem, this`freeBitmap, this`largeBitmap, this`restCount, this`idx, this`tidy
      ensures Placeable(b, total, b, {b}) && total == g.blocks[b].size && LiveKept(old(mem), mem, g.blocks, g.blocks, b)
    {
      hide TileInv, TagsOutside, CachesRep, CachesListed, SegsRep, IndexInv, BitsOk, CountOk, LiveKept, Coalesced,
           CoalescedBut, IndexedBut, RunReady, TakenOff;
      LinkageHolds(base, g.segs, mem, g.blocks, b);
      assert Linkage(mem, b);                                       // no panic at the boundary tags
      TakeOut(b, {});
      assert {} + {b} == {b};
      TagReads(base, g.segs, mem, g.blocks, b);
      total := Tag(mem, b);
      FreeAlone(base, g.segs, g.blocks, b);
      BodyRun(mem, base, g, b, b + total);
      CoalescedRun(g.blocks, b, b + total);
      RunOfFree(g.blocks, idx, b, b + total, b, {b});
    }

    /** ZEND_MM_STORAGE_ALLOC: the region at `hint` if it can be had, else NULL. */
    method StorageAlloc(hint: int, n: int) returns (seg: int)
      modifies this`storage
      ensures seg == 0 <==> !RegionFree(base, old(storage), hint, n)
      ensures seg == 0 ==> storage == old(storage)
      ensures seg != 0 ==> RegionFree(base, old(storage), seg, n) && seg == hint && storage == old(storage)[seg := n]
    {
      if RegionFree(base, storage, hint, n) {
        storage := storage[hint := n];
        return hint;
      }
      return 0;
    }

    /** No free block will do: a new segment, unless the limit or the storage forbids it. */
    method AllocSegment(trueSize: int, ghost req: int, hint: int) returns (r: Outcome)
      requires Valid() && trueSize % 8 == 0 && MIN_BLOCK <= trueSize < WORD && 0 <= req && req + HEADER <= trueSize
      modifies this`mem, this`freeBitmap, this`largeBitmap, this`restCount, this`idx, this`tidy, this`realSize,
               this`realPeak, this`size, this`peak, this`cached, this`storage, this`g, this`flushed
      ensures Valid()
      ensures r.Ptr? ==> Granted(old(mem), mem, old(g).blocks, g.blocks, r.address, req) && flushed == old(flushed)
      ensures r.Ptr? ==> realSize <= limit && NewSegmentFor(old(g), g, r.address, hint, trueSize, unit, req)
      ensures r.Ptr? ==> var a := r.address - HEADER + trueSize;
                SegmentSize(trueSize, unit) - 2 * HEADER - trueSize >= MIN_BLOCK ==>
                  a in idx.loc && (idx.loc[a] == InRest <==> Oversize(trueSize, unit))
      ensures r.Ptr? ==>
                PlacedIndex(old(idx), old(freeBitmap), old(restCount), r.address - HEADER + trueSize,
                            SegmentSize(trueSize, unit) - 2 * HEADER - trueSize, Oversize(trueSize, unit))
      ensures r.Ptr? ==> tidy == old(tidy)
      ensures SegmentOutcome(old(Now()), trueSize, hint, r)
      ensures !r.Ptr? ==>
                && cached == 0 && LiveKept(old(mem), mem, old(g).blocks, g.blocks, 0)
                && NoNewLive(old(g).blocks, g.blocks, 0)
      ensures if r.Ptr? then Opened(old(Now()), Now(), trueSize, hint, r.address, req) else FlushedOut(old(Now()), Now())
    {
      hide CutFrom, Oversize, Refused, SegmentSize, BodyBut, IndexInv, BitsOk, CountOk, IndexedBut, Sum, UsedOf,
           CachedOf, Coalesced, LiveKept, NoNewLive, Granted, Roomy, RegionFree, PlacedIndex, Opened, FlushedOut, Charged, RealCharged;
      NoCounterWraps();
      if unit < 2 * HEADER {
        TinyUnit(trueSize, unit, realSize, limit);
      } else {
        UnitDividesWord(unit);
        SegmentSizeSpec(trueSize, unit);
      }
      hide AnyUnit;
      var segmentSize := SegmentSize(trueSize, unit);
      var keepRest := Oversize(trueSize, unit);
      if Refused(trueSize, unit, realSize, limit) {
        FreeCache({});
        return LimitError;
      }
      NotRefused(trueSize, unit, realSize, limit);
      var seg := StorageAlloc(hint, segmentSize);
      if seg == 0 {
        assert Valid();
        FreeCache({});
        return MemoryError;
      }
      ghost var u := Now();
      var p := PlaceInSegment(seg, segmentSize, trueSize, keepRest, req);
      NoCounterWraps();
      WithinLimit(trueSize, unit, old(realSize), limit);
      ChargedAlike(old(Now()), u, Now(), g.blocks[p - HEADER].size, segmentSize);
      OpenedFrom(old(Now()), Now(), trueSize, hint, p, req);
      r := Ptr(p);
    }

    /** The storage has handed out the region at `seg`, which the heap does not know yet. */
    ghost predicate Offered(seg: int, n: int)
      reads this
    {
      && BodyOk(mem, base, g) && IndexOk() && IndexedBut(idx, g.blocks, {}) && Coalesced(g.blocks) && Accounts()
      && g.caches.loose == -1
      && RegionFree(base, g.segs, seg, n) && storage == g.segs[seg := n]
    }

    /** The segment is set up and entered in the list; its first block is cut from it. */
    method PlaceInSegment(seg: int, n: int, trueSize: int, keepRest: bool, ghost req: int) returns (p: int)
      requires Offered(seg, n) && Sound() && Multiple(n, unit) && 2 * HEADER <= unit
      requires trueSize % 8 == 0 && MIN_BLOCK <= trueSize && trueSize + 2 * HEADER <= n && 0 <= req
      requires req + HEADER <= trueSize
      modifies this`mem, this`freeBitmap, this`largeBitmap, this`restCount, this`idx, this`realSize, this`realPeak,
               this`size, this`peak, this`g
      ensures realSize == old(realSize) + n && g.segs == old(g).segs[seg := n]
      ensures n - 2 * HEADER - trueSize >= MIN_BLOCK ==>
                seg + HEADER + trueSize in idx.loc && (idx.loc[seg + HEADER + trueSize] == InRest <==> keepRest)
      ensures PlacedIndex(old(idx), old(freeBitmap), old(restCount), seg + HEADER + trueSize, n - 2 * HEADER - trueSize, keepRest)
      ensures p == seg + 2 * HEADER && CutFrom(old(g).blocks, g.blocks, seg, n, trueSize, req)
      ensures Valid() && Granted(old(mem), mem, old(g).blocks, g.blocks, p, req)
      ensures p - HEADER in g.blocks && Charged(old(Now()), Now(), g.blocks[p - HEADER].size)
      ensures RealCharged(old(Now()), Now(), n)
      ensures g.order == [seg] + old(g).order && g.caches == old(g).caches
    {
      hide Carve, TileInv, TagsOutside, CachesRep, CachesListed, SegsRep, IndexInv, BitsOk, CountOk, LiveKept,
           NoNewLive, Coalesced, CoalescedBut, Sum, IndexedBut, Roomy, AnyUnit, UsedOf, CachedOf, RunReady, SamePayload,
           AddSegment, RegionFree, JoinedRest, UnitSegs, Placeable, Mid, Multiple;
      ghost var g0, m0 := g, mem;
      var b := seg + HEADER;
      OpenSegment(seg, n);
      ghost var m1, b1 := mem, g.blocks;
      var s := Place(b, n - 2 * HEADER, trueSize, keepRest, req, b, {b});
      Charge(0, s);
      GrownTotal(b1, g.blocks, b, s);
      LiveKeptTrans(m0, m1, mem, g0.blocks, b1, g.blocks, b);
      NoNewTrans(g0.blocks, b1, g.blocks, b);
      RoomyKept(m0, mem, g0.blocks, g.blocks, b);
      UnitSegsSet(g0.segs, unit, seg, n);
      Tiled({});
      PayloadAligned(base, g.segs, g.blocks, b);
      p := b + HEADER;
    }

    method OpenSegment(seg: int, n: int)
      requires Offered(seg, n)
      modifies this`mem, this`realSize, this`realPeak, this`g
      ensures var b := seg + HEADER;
              && Placeable(b, n - 2 * HEADER, b, {b}) && b in g.blocks && g.blocks[b].kind.Free? && b !in old(g).blocks
              && LiveKept(old(mem), mem, old(g).blocks, g.blocks, b) && NoNewLive(old(g).blocks, g.blocks, b)
              && UsedOf(g.blocks) == UsedOf(old(g).blocks) && CachedOf(g.blocks) == CachedOf(old(g).blocks)
      ensures realSize == old(realSize) + n && g.blocks == AddSegment(old(g).blocks, seg, n)
      ensures g.segs == old(g).segs[seg := n] && Sum(g.segs) == realSize && realSize <= realPeak
      ensures g.caches == old(g).caches && g.order == [seg] + old(g).order && RealCharged(old(Now()), Now(), n)
    {
      hide BodyBut, IndexInv, BitsOk, CountOk, LiveKept, NoNewLive, Coalesced, CoalescedBut, Sum, IndexedBut, Roomy,
           AnyUnit, UsedOf, CachedOf, SamePayload, AddSegment, RegionFree, Wr, SegmentSet, SameButRegion;
      ghost var g0, m0 := g, mem;
      BodyTiled(mem, base, g, 0, 0);
      IndexedFree(idx, g.blocks, {});
      RegionAdds(base, g.segs, g.blocks, seg, n);
      realSize := realSize + n;
      if realSize > realPeak {
        realPeak := realSize;
      }
      SumAdd(g0.segs, seg, n);
      WriteHeader(seg, n);
      NewBody(m0, mem, base, g, idx, seg, n);
      FreshRegion(base, g.segs, g.blocks, seg, n);
      AddCoalesced(base, g.segs, g.blocks, seg, n);
      AddLive(m0, mem, g.blocks, seg, n);
      g := Body(g.segs[seg := n], AddSegment(g.blocks, seg, n), [seg] + g.order, g.caches);
      AddedRun(base, g0, idx, seg, n);
    }

    method WriteHeader(seg: int, n: int)
      requires n >= 2 * HEADER + MIN_BLOCK && (seg + n <= base || base + STRUCT_SIZE <= seg)
      modifies this`mem
      ensures SameButRegion(old(mem), mem, seg, seg + n, SegmentsSlot(base)) && Rd(mem, SegmentsSlot(base)) == seg
      ensures SegmentSet(mem, seg, n, Rd(old(mem), SegmentsSlot(base)))
    {
      hide Wr, SegmentSet, SameButRegion;
      SegmentWritten(mem, base, seg, n);
      mem := Wr(mem, seg, n);
      mem := Wr(mem, seg + 8, Rd(mem, SegmentsSlot(base)));
      mem := Wr(mem, SegmentsSlot(base), seg);
      mem := Wr(mem, seg + HEADER + 8, FIRST_MARK);
      mem := Wr(mem, seg + n - HEADER, HEADER + 3);
    }

    // ---------- _zend_mm_realloc_int ----------

    /** Resize the block with payload `p` to `req` bytes; `hint` is where the storage would put or move
        a segment. */
    method ReallocInt(p: int, req: nat, hint: int) returns (r: Outcome)
      requires Valid() && req < WORD && (p != 0 ==> IsLive(p - HEADER))
      modifies this`mem, this`freeBitmap, this`largeBitmap, this`restCount, this`idx, this`tidy, this`realSize,
               this`realPeak, this`size, this`peak, this`cached, this`storage, this`g, this`flushed
      ensures Valid() <==> !old(LosesNext(p, req, hint))
      ensures old(LosesNext(p, req, hint)) ==>
                old(IsLive(p - HEADER)) && Lost(p - HEADER + old(g).blocks[p - HEADER].size)
      ensures ResizeOutcome(old(Now()), p, req, hint, r)
      ensures p != 0 && req + HEADER + 7 < WORD && !CacheHit(old(Now()), TrueSize(req))
              && TakesAll(old(g).blocks, p - HEADER, TrueSize(req)) ==>
                TakenOff(old(mem), base, old(idx), old(freeBitmap), idx, freeBitmap, p - HEADER + old(g).blocks[p - HEADER].size)
      ensures r.Ptr? ==> Valid() && flushed == old(flushed)
      ensures r.Ptr? && p == 0 ==> Granted(old(mem), mem, old(g).blocks, g.blocks, r.address, req)
      ensures r.Ptr? && p != 0 ==> Resized(old(mem), mem, old(g).blocks, g.blocks, p, r.address, req)
      ensures !r.Ptr? ==> LiveKept(old(mem), mem, old(g).blocks, g.blocks, 0) && NoNewLive(old(g).blocks, g.blocks, 0)
      ensures ResizeEffect(old(Now()), Now(), p, req, hint, r)
    {
      hide TileInv, TagsOutside, CachesRep, CachesListed, SegsRep, IndexInv, BitsOk, CountOk, LiveKept, NoNewLive,
           Coalesced, Sum, IndexedBut, Roomy, Granted, Resized, AnyUnit, UsedOf, CachedOf, TakenOff;
      if p == 0 {
        r := AllocInt(req, hint);
        return;
      }
      var b := p - HEADER;
      var trueSize := TrueSize(req);
      TrueSizeSpec(req);
      TagReads(base, g.segs, mem, g.blocks, b);
      var orig := Tag(mem, b) - Tag(mem, b) % 4;
      if trueSize < req {
        SelfKept(mem, g.blocks, 0);
        return MemoryError;
      }
      if trueSize <= orig {
        Shrink(b, orig, trueSize, req);
        return Ptr(p);
      }
      if Small(trueSize) {
        var index := BucketIndex(trueSize);
        if Rd(mem, CacheSlot(base, index)) != 0 {
          var q := SwapCached(b, orig, index, trueSize, req);
          return Ptr(q);
        }
      }
      r := Enlarge(b, orig, trueSize, req, hint);
    }

    /** A smaller or equal size: the tail, with a free block behind it, becomes a free block if it is
        large enough for one. */
    method Shrink(b: int, orig: int, trueSize: int, ghost req: int)
      requires Valid() && IsLive(b) && orig == g.blocks[b].size
      requires trueSize % 8 == 0 && MIN_BLOCK <= trueSize <= orig && 0 <= req && req + HEADER <= trueSize
      modifies this`mem, this`freeBitmap, this`largeBitmap, this`restCount, this`idx, this`tidy, this`size, this`g
      ensures orig - trueSize >= MIN_BLOCK ==> b + trueSize in idx.loc && idx.loc[b + trueSize] != InRest
      ensures Valid() && Resized(old(mem), mem, old(g).blocks, g.blocks, b + HEADER, b + HEADER, req)
      ensures ShrunkTo(old(Now()), Now(), b, trueSize, req)
    {
      hide Carve, Placeable, TileInv, TagsOutside, CachesRep, CachesListed, SegsRep, IndexInv, BitsOk, CountOk,
           LiveKept, NoNewLive, Coalesced, CoalescedBut, Sum, IndexedBut, Roomy, AnyUnit, UsedOf, CachedOf, RunReady,
           Rekind, TakenOff, PlacedIndex, UnitSegs, ShrunkTo, CutOff, Mid, Resized, Copied;
      ghost var b0, m0 := g.blocks, mem;
      Tiled({});
      PayloadAligned(base, g.segs, b0, b);
      if orig - trueSize >= MIN_BLOCK {
        var total, out := TakeNext(b, orig);
        ghost var m1 := mem;
        var s := Place(b, total, trueSize, false, req, b, out);
        size := size + (trueSize - orig);
        ChangedTotal(b0, g.blocks, b, s);
        LiveKeptTrans(m0, m1, mem, b0, b0, g.blocks, b);
        ResizedInPlace(m0, m1, mem, b0, g.blocks, b, req);
        ShrunkFrom(old(Now()), Now(), b, trueSize, req, total);
        RoomyKept(m0, mem, b0, g.blocks, b);
      } else {
        KeepWhole(b, req);
        StaysWhole(old(Now()), Now(), b, trueSize, req);
      }
    }

    /** Too little would be left: the block keeps its size. */
    ghost method KeepWhole(b: int, req: int)
      requires Valid() && IsLive(b) && 0 <= req && req + HEADER <= g.blocks[b].size
      modifies this`g
      ensures Valid() && g == old(g).(blocks := Rekind(old(g).blocks, b, Live(req)))
      ensures Resized(mem, mem, old(g).blocks, g.blocks, b + HEADER, b + HEADER, req)
    {
      hide TileInv, TagsOutside, CachesRep, CachesListed, SegsRep, IndexInv, BitsOk, CountOk, LiveKept, NoNewLive,
           Coalesced, Sum, IndexedBut, Roomy, AnyUnit, UsedOf, CachedOf, Rekind, UnitSegs;
      ghost var b0 := g.blocks;
      PayloadAligned(base, g.segs, b0, b);
      RekindLive(mem, base, g, idx, b, Live(req));
      g := g.(blocks := Rekind(b0, b, Live(req)));
      RoomyKept(mem, mem, b0, g.blocks, b);
    }

    /** A free block behind `b` leaves the index; the run from `b` can then be placed anew. */
    method TakeNext(b: int, orig: int) returns (total: int, ghost out: set<int>)
      requires Mid({}) && Coalesced(g.blocks) && IsLive(b) && orig == g.blocks[b].size
      modifies this`mem, this`freeBitmap, this`largeBitmap, this`restCount, this`idx, this`tidy
      ensures var n := b + orig; n in g.blocks && total == orig + (if g.blocks[n].kind.Free? then g.blocks[n].size else 0)
      ensures forall c :: c in out <==> c == b + orig && c in g.blocks && g.blocks[c].kind.Free?
      ensures b + orig in out ==> TakenOff(old(mem), base, old(idx), old(freeBitmap), idx, freeBitmap, b + orig)
      ensures orig <= total && b + total in g.blocks
      ensures Copied(old(mem), b + HEADER, mem, b + HEADER, orig - HEADER)
      ensures Mid(out) && Placeable(b, total, b, out) && forall x :: LiveKept(old(mem), mem, g.blocks, g.blocks, x)
    {
      hide TileInv, TagsOutside, CachesRep, CachesListed, SegsRep, IndexInv, BitsOk, CountOk, LiveKept, Coalesced,
           CoalescedBut, IndexedBut, RunReady, TakenOff;
      ghost var b0, m0 := g.blocks, mem;
      SelfKeptAll(mem, b0);
      Links(base, g.segs, b0, b);
      var next := b + orig;
      TagReads(base, g.segs, mem, b0, next);
      total, out := orig, {};
      if Tag(mem, next) % 2 == 0 {
        total := total + Tag(mem, next);
        TakeOut(next, out);
        out := {} + {next};
        PayloadWords(m0, mem, b0, b);
      }
      NextRun(base, g.segs, b0, b);
      Bounds(base, g.segs, b0, next);
      BodyRun(mem, base, g, b, b + total);
      CoalescedRun(b0, b, b + total);
      RunOfFree(b0, idx, b, b + total, b, out);
    }

    /** A cached block of the new size takes over the contents; the old block is cached instead. */
    method SwapCached(b: int, orig: int, index: int, trueSize: int, ghost req: int) returns (q: int)
      requires Valid() && IsLive(b) && orig == g.blocks[b].size && orig < trueSize < MAX_SMALL
      requires 0 <= index < NUM_BUCKETS && trueSize == MIN_BLOCK + 8 * index && Rd(mem, CacheSlot(base, index)) != 0
      requires 0 <= req && req + HEADER <= trueSize
      modifies this`mem, this`cached, this`g
      ensures Valid() && Resized(old(mem), mem, old(g).blocks, g.blocks, b + HEADER, q, req)
      ensures b in g.blocks && g.blocks[b].kind.Cached? && g.blocks[b].size == orig
      ensures Rd(mem, CacheSlot(base, BucketIndex(orig))) == b
      ensures cached == old(cached) - trueSize + orig
      ensures q == Rd(old(mem), CacheSlot(base, index)) + HEADER
      ensures Swapped(old(Now()), Now(), b, q - HEADER, trueSize, req)
    {
      hide Mid, Sum, UsedOf, CachedOf, Sound, Coalesced, LiveKept, NoNewLive;
      ghost var b0, m0 := g.blocks, mem;
      LiveBounds(b);
      q := AllocCached(index, trueSize, req);
      ghost var m1, b1 := mem, g.blocks;
      GrantedKept(m0, m1, b0, b1, b, q, req);
      Memcpy(b + HEADER, q, orig - HEADER);
      ghost var m2 := mem;
      CachePush(b, orig);
      CopiedOver(m0, m1, m2, mem, b0, b1, g.blocks, b, q, req);
    }

    /** The old payload is copied into the live block with payload `q`. */
    method Memcpy(p: int, q: int, n: int)
      requires Valid() && IsLive(p - HEADER) && IsLive(q - HEADER) && p != q
      requires 0 <= n <= g.blocks[p - HEADER].size - HEADER && n <= g.blocks[q - HEADER].size - HEADER
      modifies this`mem
      ensures Valid()
      ensures Copied(old(mem), p, mem, q, n)
      ensures LiveKept(old(mem), mem, g.blocks, g.blocks, q - HEADER)
    {
      hide TileInv, TagsOutside, CachesRep, CachesListed, SegsRep, IndexInv, BitsOk, CountOk, LiveKept, NoNewLive,
           Coalesced, Sum, IndexedBut, Roomy, AnyUnit, UsedOf, CachedOf, Wr;
      ghost var m0 := mem;
      LiveApart(base, g.segs, g.blocks, p - HEADER, q - HEADER);
      var k := 0;
      while k < n
        invariant 0 <= k <= n
        invariant Copied(m0, p, mem, q, k)
        invariant forall w :: !(q <= w < q + k) ==> Rd(mem, w) == Rd(m0, w)
      {
        WordWritten(mem, q + k, Rd(mem, p + k));
        mem := Wr(mem, q + k, Rd(mem, p + k));
        k := k + 1;
      }
      PayloadWrite(m0, mem, base, g, idx, q - HEADER);
    }

    /** A larger size and no cached block for it: into the free block behind, by growing a segment
        that holds nothing else, or by a new block, a copy and a release. */
    method Enlarge(b: int, orig: int, trueSize: int, req: int, hint: int) returns (r: Outcome)
      requires Valid() && IsLive(b) && orig == g.blocks[b].size && orig < trueSize && 0 <= req < WORD
      requires trueSize == TrueSize(req) && trueSize >= req
      requires !(Small(trueSize) && Rd(mem, CacheSlot(base, BucketIndex(trueSize))) != 0)
      modifies this`mem, this`freeBitmap, this`largeBitmap, this`restCount, this`idx, this`tidy, this`realSize,
               this`realPeak, this`size, this`peak, this`cached, this`storage, this`g, this`flushed
      ensures Valid() <==> !old(LosesNext(b + HEADER, req, hint))
      ensures old(LosesNext(b + HEADER, req, hint)) ==> old(IsLive(b)) && Lost(b + old(g).blocks[b].size)
      ensures EnlargeOutcome(old(Now()), b, trueSize, req, hint, r)
      ensures TakesAll(old(g).blocks, b, trueSize) ==>
                TakenOff(old(mem), base, old(idx), old(freeBitmap), idx, freeBitmap, b + orig)
      ensures r.Ptr? ==>
                && Valid() && flushed == old(flushed)
                && Resized(old(mem), mem, old(g).blocks, g.blocks, b + HEADER, r.address, req)
      ensures !r.Ptr? ==> LiveKept(old(mem), mem, old(g).blocks, g.blocks, 0) && NoNewLive(old(g).blocks, g.blocks, 0)
      ensures EnlargeEffect(old(Now()), Now(), b, trueSize, req, hint, r)
    {
      hide TileInv, TagsOutside, CachesRep, CachesListed, SegsRep, IndexInv, BitsOk, CountOk, LiveKept, NoNewLive,
           Coalesced, Sum, IndexedBut, Roomy, Resized, AnyUnit, UsedOf, CachedOf, TakenOff, GrownInto, Regrew, FlushedOut, MovedTo;
      hide GrowOutcome, AllocOutcome, SegmentSize, Resizable, Lost, UnitSegs;
      TrueSizeSpec(req);
      Links(base, g.segs, g.blocks, b);
      var next := b + orig;
      TagReads(base, g.segs, mem, g.blocks, b);
      TagReads(base, g.segs, mem, g.blocks, next);
      if Tag(mem, next) % 2 == 0 {
        LinkageHolds(base, g.segs, mem, g.blocks, next);
        assert Linkage(mem, next);                                  // no panic at the boundary tags
        Links(base, g.segs, g.blocks, next);
        TagReads(base, g.segs, mem, g.blocks, next + Tag(mem, next));
        if orig + Tag(mem, next) >= trueSize {
          GrowIntoNext(b, orig, trueSize, req);
          return Ptr(b + HEADER);
        } else if PrevTag(mem, b) == FIRST_MARK && Tag(mem, next + Tag(mem, next)) % 4 == 3 {
          r := GrowSegment(b, orig, trueSize, req, hint);
          return;
        }
      } else if PrevTag(mem, b) == FIRST_MARK && Tag(mem, next) % 4 == 3 {
        r := GrowSegment(b, orig, trueSize, req, hint);
        return;
      }
      r := MoveBlock(b, orig, trueSize, req, hint);
    }

    /** The run begins its segment and ends at the guard. */
    method FillsSegment(b: int, total: int, ghost out: set<int>) returns (yes: bool)
      requires Mid(out) && b in g.blocks && b + total in g.blocks
      ensures yes <==> g.blocks[b].prev == 0 && g.blocks[b + total].kind.Guard?
    {
      hide TileInv, TagsOutside, CachesRep, CachesListed, SegsRep, IndexOk, IndexedBut;
      TagReads(base, g.segs, mem, g.blocks, b);
      TagReads(base, g.segs, mem, g.blocks, b + total);
      yes := PrevTag(mem, b) == FIRST_MARK && Tag(mem, b + total) % 4 == 3;
    }

    method GrowIntoNext(b: int, orig: int, trueSize: int, ghost req: int)
      requires Valid() && IsLive(b) && orig == g.blocks[b].size
      requires b + orig in g.blocks && g.blocks[b + orig].kind.Free?
      requires orig < trueSize <= orig + g.blocks[b + orig].size
      requires trueSize % 8 == 0 && trueSize >= MIN_BLOCK && 0 <= req && req + HEADER <= trueSize
      modifies this`mem, this`freeBitmap, this`largeBitmap, this`restCount, this`idx, this`tidy, this`size, this`peak,
               this`g
      ensures var n := b + orig; var e := n + old(g).blocks[n].size;
              e - b - trueSize >= MIN_BLOCK ==>
                && e in old(g).blocks && b + trueSize in idx.loc
                && (idx.loc[b + trueSize] == InRest <==> old(g).blocks[b].prev == 0 && old(g).blocks[e].kind.Guard?)
      ensures orig + old(g).blocks[b + orig].size - trueSize < MIN_BLOCK ==>
                TakenOff(old(mem), base, old(idx), old(freeBitmap), idx, freeBitmap, b + orig)
      ensures Valid() && Resized(old(mem), mem, old(g).blocks, g.blocks, b + HEADER, b + HEADER, req)
      ensures GrownInto(old(Now()), Now(), b, trueSize, req)
    {
      hide Carve, Placeable, TileInv, TagsOutside, CachesRep, CachesListed, SegsRep, IndexInv, BitsOk, CountOk,
           LiveKept, NoNewLive, Coalesced, CoalescedBut, Sum, IndexedBut, Roomy, AnyUnit, UsedOf, CachedOf, RunReady,
           TakenOff, JoinedRest, UnitSegs, GrownInto, CutOff, Mid, Resized, Copied;
      ghost var b0, m0 := g.blocks, mem;
      Tiled({});
      PayloadAligned(base, g.segs, b0, b);
      var total, out := TakeNext(b, orig);
      var rest := FillsSegment(b, total, out);
      ghost var m1 := mem;
      var s := Place(b, total, trueSize, rest, req, b, out);
      Charge(orig, s);
      ChangedTotal(b0, g.blocks, b, s);
      LiveKeptTrans(m0, m1, mem, b0, b0, g.blocks, b);
      ResizedInPlace(m0, m1, mem, b0, g.blocks, b, req);
      GrownIntoFrom(old(Now()), Now(), b, trueSize, req, total, s, rest);
      RoomyKept(m0, mem, b0, g.blocks, b);
    }

    /** A new block, a copy, and the release of the old one. */
    method MoveBlock(b: int, orig: int, trueSize: int, req: int, hint: int) returns (r: Outcome)
      requires Valid() && IsLive(b) && orig == g.blocks[b].size && orig < trueSize && 0 <= req < WORD
      requires trueSize == TrueSize(req) && trueSize >= req
      modifies this`mem, this`freeBitmap, this`largeBitmap, this`restCount, this`idx, this`tidy, this`realSize,
               this`realPeak, this`size, this`peak, this`cached, this`storage, this`g, this`flushed
      ensures Valid()
      ensures AllocOutcome(old(Now()), req, hint, r)
      ensures r.Ptr? ==>
                flushed == old(flushed) && Resized(old(mem), mem, old(g).blocks, g.blocks, b + HEADER, r.address, req)
      ensures !r.Ptr? ==> LiveKept(old(mem), mem, old(g).blocks, g.blocks, 0) && NoNewLive(old(g).blocks, g.blocks, 0)
      ensures MovedTo(old(Now()), Now(), b, req, hint, r)
    {
      hide Mid, Accounts, Sound, Coalesced, LiveKept, NoNewLive, NothingFits, TrueSize, UnitSegs, AllocEffect,
           FreeEffect, AllocOutcome;
      ghost var b0, m0 := g.blocks, mem;
      r := AllocInt(req, hint);
      if r.Ptr? {
        var q := r.address;
        ghost var m1, b1, v1 := mem, g.blocks, Now();
        GrantedKept(m0, m1, b0, b1, b, q, req);
        EnoughRoom(q, req);
        LiveBounds(b);
        Memcpy(b + HEADER, q, orig - HEADER);
        ghost var m2 := mem;
        ghost var u := Now();
        FreeInt(b + HEADER);
        FreeEffectStored(v1, u.mem, Now(), b);
        CopiedOver(m0, m1, m2, mem, b0, b1, g.blocks, b, q, req);
      }
    }

    /** The counters stay below the word size, so their machine arithmetic never wraps. */
    lemma NoCounterWraps()
      requires Valid()
      ensures 0 <= realSize < WORD && 0 <= cached <= size - flushed < WORD
    {
      hide TagsOutside, CachesRep, CachesListed, SegsRep, IndexOk, IndexedBut, Coalesced, Sum, UsedOf, CachedOf, LiveOf,
           Roomy, AnyUnit, Within, NextLinked, PrevLinked, Ends, NoOverlap;
      SegmentsFit(base, g.segs);
      BlocksFit(base, g.segs, g.blocks);
      UsedSplit(g.blocks);
    }

    lemma LiveBounds(b: int)
      requires Valid() && IsLive(b)
      ensures b > 0 && g.blocks[b].size >= MIN_BLOCK && g.blocks[b].size % 8 == 0
    {
      hide TileInv, TagsOutside, CachesRep, CachesListed, SegsRep, IndexOk, IndexedBut, Coalesced, Accounts, Sound;
      Bounds(base, g.segs, g.blocks, b);
      NotZero(base, g.segs, g.blocks);
    }

    /** A block granted for `req` bytes has at least the size the macro computes. */
    lemma EnoughRoom(q: int, req: nat)
      requires Valid() && req < WORD && TrueSize(req) >= req && IsLive(q - HEADER)
      requires q + req <= q - HEADER + g.blocks[q - HEADER].size
      ensures g.blocks[q - HEADER].size >= TrueSize(req)
    {
      hide ValidBut;
      TrueSizeSpec(req);
      LiveBounds(q - HEADER);
    }

    /** ZEND_MM_STORAGE_REALLOC: the region grows in place, or moves to `hint` with its contents, or NULL. */
    method StorageRealloc(seg: int, n: int, hint: int) returns (r: int)
      requires 0 < seg && seg in storage && storage[seg] <= n
      modifies this`storage, this`mem
      ensures r == 0 <==> !Resizable(base, old(storage), seg, n, hint)
      ensures r != 0 ==> r == if hint == seg && RegionFree(base, old(storage) - {seg}, seg, n) then seg else hint
      ensures r == 0 ==> storage == old(storage) && mem == old(mem)
      ensures r != 0 ==>
                && RegionFree(base, old(storage) - {seg}, r, n) && storage == (old(storage) - {seg})[r := n]
                && (r in old(storage) ==> r == seg)
                && Copied(old(mem), seg, mem, r, old(storage)[seg])
                && (forall w :: !(r <= w < r + n) ==> Rd(mem, w) == Rd(old(mem), w))
    {
      if hint == seg && RegionFree(base, storage - {seg}, seg, n) {
        storage := storage[seg := n];
        assert storage == (old(storage) - {seg})[seg := n];
        return seg;
      }
      if !RegionFree(base, storage, hint, n) || hint in storage {
        return 0;
      }
      ghost var m0 := mem;
      var k := 0;
      while k < storage[seg]
        invariant 0 <= k <= n && storage == old(storage)
        invariant Copied(m0, seg, mem, hint, k)
        invariant forall w :: !(hint <= w < hint + k) ==> Rd(mem, w) == Rd(m0, w)
      {
        mem := Wr(mem, hint + k, Rd(mem, seg + k));
        k := k + 1;
      }
      storage := (storage - {seg})[hint := n];
      return hint;
    }

    /** The one case in which a failed resize leaves the heap damaged: the free block behind has been
        unlinked for a segment resize that the storage then refuses, and nobody links it again. */
    ghost predicate LosesNext(p: int, req: nat, hint: int)
      reads this
    {
      var b, t := p - HEADER, TrueSize(req);
      && p != 0 && IsLive(b) && req <= t && g.blocks[b].size < t && unit > 0 && b - HEADER in g.segs
      && !(Small(t) && Rd(mem, CacheSlot(base, BucketIndex(t))) != 0)
      && g.blocks[b].prev == 0 && LastRun(g.blocks, b, t) && g.blocks[b + g.blocks[b].size].kind.Free?
      && (var n := SegmentSize(t, unit);
          t <= n && (realSize + n - g.segs[b - HEADER]) % WORD <= limit && !Resizable(base, storage, b - HEADER, n, hint))
    }

    /** What `LosesNext` comes to for a block that is about to grow with its segment. */
    lemma LosesWhen(b: int, req: nat, hint: int)
      requires Valid() && IsLive(b) && req <= TrueSize(req) && g.blocks[b].size < TrueSize(req)
      requires !(Small(TrueSize(req)) && Rd(mem, CacheSlot(base, BucketIndex(TrueSize(req)))) != 0)
      requires g.blocks[b].prev == 0 && LastRun(g.blocks, b, TrueSize(req))
      ensures 2 * HEADER <= unit && GoodUnit(unit) && b - HEADER in g.segs && b > HEADER
      ensures g.segs[b - HEADER] < TrueSize(req) + 2 * HEADER
      ensures g.blocks[b].size + 2 * HEADER <= g.segs[b - HEADER] && g.blocks[b].seg == b - HEADER
      ensures var n := SegmentSize(TrueSize(req), unit);
              LosesNext(b + HEADER, req, hint) <==>
                && g.blocks[b + g.blocks[b].size].kind.Free? && TrueSize(req) <= n
                && (realSize + n - g.segs[b - HEADER]) % WORD <= limit && !Resizable(base, storage, b - HEADER, n, hint)
    {
      hide TileInv, TagsOutside, CachesRep, CachesListed, SegsRep, IndexOk, IndexedBut, Coalesced, Accounts, Roomy,
           SegmentSize, Resizable, TrueSize;
      WholeBlock(base, g.segs, g.blocks, b);
      NotZero(base, g.segs, g.blocks);
      UnitDividesWord(unit);
    }

    /** The block has its segment to itself, but for a free block behind it: the segment is resized. */
    method GrowSegment(b: int, orig: int, trueSize: int, req: nat, hint: int) returns (r: Outcome)
      requires Valid() && IsLive(b) && orig == g.blocks[b].size && orig < trueSize && trueSize == TrueSize(req)
      requires trueSize % 8 == 0 && MIN_BLOCK <= trueSize < WORD && req + HEADER <= trueSize
      requires !(Small(trueSize) && Rd(mem, CacheSlot(base, BucketIndex(trueSize))) != 0)
      requires g.blocks[b].prev == 0 && LastRun(g.blocks, b, trueSize)
      modifies this`mem, this`freeBitmap, this`largeBitmap, this`restCount, this`idx, this`tidy, this`realSize,
               this`realPeak, this`size, this`peak, this`cached, this`storage, this`g, this`flushed
      ensures Valid() <==> !old(LosesNext(b + HEADER, req, hint))
      ensures old(LosesNext(b + HEADER, req, hint)) ==> old(IsLive(b)) && Lost(b + old(g).blocks[b].size)
      ensures GrowOutcome(old(Now()), b, trueSize, hint, r)
      ensures r.Ptr? ==>
                && Valid() && flushed == old(flushed)
                && Resized(old(mem), mem, old(g).blocks, g.blocks, b + HEADER, r.address, req)
      ensures !r.Ptr? ==>
                && cached == 0 && LiveKept(old(mem), mem, old(g).blocks, g.blocks, 0)
                && NoNewLive(old(g).blocks, g.blocks, 0)
      ensures if r.Ptr? then Regrew(old(Now()), Now(), b, trueSize, hint, r.address, req) else FlushedOut(old(Now()), Now())
    {
      hide TileInv, TagsOutside, CachesRep, CachesListed, SegsRep, IndexInv, BitsOk, CountOk, LiveKept, NoNewLive,
           Coalesced, CoalescedBut, Sum, IndexedBut, Roomy, Resized, UsedOf, CachedOf, RegionFree, RunReady, Placeable,
           Resizable, NoCached, SegmentSize, TrueSize, LosesNext, AnyUnit, TakenOff, UnitSegs, RegrewBody, FlushedOut, Lost,
           Charged, RealCharged, GrowOutcome;
      ghost var b0, m0, v := g.blocks, mem, Now();
      LosesWhen(b, req, hint);
      SegmentSizeSpec(trueSize, unit);
      var segmentSize := SegmentSize(trueSize, unit);
      var total, out := TakeNext(b, orig);
      var segCopy := b - HEADER;
      AloneInSegment(mem, base, g, idx, b, out);
      ghost var u := Now();
      r := GrowTaken(b, orig, trueSize, segmentSize, req, hint, m0, out);
      GrowOutcomeFrom(v, b, trueSize, hint, r, segmentSize);
      if r.Ptr? { RegrewAlike(v, u, Now(), b, trueSize, segmentSize, hint, r.address, req); } else { FlushedFrom(v, Now()); }
    }

    /** The free block behind, if there is one, is out of the index. */
    method GrowTaken(b: int, orig: int, trueSize: int, n: int, ghost req: int, hint: int, ghost m0: Mem,
        ghost out: set<int>)
      returns (r: Outcome)
      requires ValidBut(out) && IsLive(b) && orig == g.blocks[b].size && orig < trueSize
      requires trueSize % 8 == 0 && MIN_BLOCK <= trueSize && 0 <= req && req + HEADER <= trueSize && 2 * HEADER <= unit
      requires n >= trueSize ==> trueSize + 2 * HEADER <= n && Multiple(n, unit)
      requires 0 < b - HEADER && b - HEADER in g.segs && orig + 2 * HEADER <= g.segs[b - HEADER] < trueSize + 2 * HEADER
      requires g.blocks[b].seg == b - HEADER && Rd(mem, b - HEADER) == g.segs[b - HEADER] && b + orig in g.blocks
      requires forall c :: c in out <==> c == b + orig && c in g.blocks && g.blocks[c].kind.Free?
      requires forall c :: c in g.blocks && g.blocks[c].seg == b - HEADER ==>
                 c !in idx.size && !g.blocks[c].kind.Cached? && (InUse(g.blocks[c].kind) ==> c == b)
      requires forall c :: c in out ==> c in g.blocks && g.blocks[c].seg == b - HEADER
      requires (forall x :: LiveKept(m0, mem, g.blocks, g.blocks, x))
      requires Copied(m0, b + HEADER, mem, b + HEADER, orig - HEADER)
      modifies this`mem, this`freeBitmap, this`largeBitmap, this`restCount, this`idx, this`tidy, this`realSize,
               this`realPeak, this`size, this`peak, this`cached, this`storage, this`g, this`flushed
      ensures Valid() <==> out == {} || !r.MemoryError?
      ensures r.LimitError? <==> n < trueSize || (old(realSize) + n - old(g).segs[b - HEADER]) % WORD > limit
      ensures r.MemoryError? <==> !r.LimitError? && !old(Resizable(base, storage, b - HEADER, n, hint))
      ensures out != {} && r.MemoryError? ==> Lost(b + orig)
      ensures r.Ptr? ==>
                && Valid() && flushed == old(flushed) && RegrewBody(old(Now()), Now(), b, trueSize, n, hint, r.address, req)
                && Resized(m0, mem, old(g).blocks, g.blocks, b + HEADER, r.address, req)
      ensures !r.Ptr? ==>
                && cached == 0 && flushed == old(flushed) + old(cached) && size == old(size) && peak == old(peak)
                && realPeak == old(realPeak) && (forall s :: s in g.segs ==> s in old(g).segs && g.segs[s] == old(g).segs[s])
                && (forall c :: c in g.blocks ==> !g.blocks[c].kind.Cached?)
                && LiveKept(m0, mem, old(g).blocks, g.blocks, 0) && NoNewLive(old(g).blocks, g.blocks, 0)
    {
      hide Mid, Coalesced, LiveKept, NoNewLive, Sum, UsedOf, CachedOf, AnyUnit, UnitSegs, Roomy, Resized, Resizable, Copied,
           RegrewBody, Lost, Multiple;
      if n < trueSize || (realSize + n - Rd(mem, b - HEADER)) % WORD > limit {
        RefuseGrowth(b + orig, out, m0);
        return LimitError;
      }
      r := RegrowSegment(b, orig, trueSize, n, req, hint, m0, out);
    }

    /** The limit forbids the resize: what was taken is given back, and the cache is flushed. */
    method RefuseGrowth(next: int, ghost out: set<int>, ghost m0: Mem)
      requires ValidBut(out) && next in g.blocks && forall c :: c in out <==> c == next && g.blocks[next].kind.Free?
      requires forall x :: LiveKept(m0, mem, g.blocks, g.blocks, x)
      modifies this`mem, this`freeBitmap, this`largeBitmap, this`restCount, this`idx, this`tidy
      modifies this`realSize, this`cached, this`storage, this`g, this`flushed
      ensures Valid() && cached == 0
      ensures LiveKept(m0, mem, old(g).blocks, g.blocks, 0) && NoNewLive(old(g).blocks, g.blocks, 0)
      ensures flushed == old(flushed) + old(cached)
      ensures forall s :: s in g.segs ==> s in old(g).segs && g.segs[s] == old(g).segs[s]
      ensures forall c :: c in g.blocks ==> !g.blocks[c].kind.Cached?
    {
      hide Mid, Coalesced, LiveKept, NoNewLive, Sum, UsedOf, CachedOf, AnyUnit, UnitSegs, Roomy;
      ghost var b0, m1 := g.blocks, mem;
      GiveNext(next, out);
      ghost var m2 := mem;
      FreeCache({});
      LiveKeptTrans(m0, m1, m2, b0, b0, b0, 0);
      LiveKeptTrans(m0, m2, mem, b0, b0, g.blocks, 0);
    }

    method RegrowSegment(b: int, orig: int, trueSize: int, n: int, ghost req: int, hint: int, ghost m0: Mem,
        ghost out: set<int>)
      returns (r: Outcome)
      requires ValidBut(out) && IsLive(b) && orig == g.blocks[b].size && orig < trueSize
      requires trueSize % 8 == 0 && MIN_BLOCK <= trueSize && trueSize + 2 * HEADER <= n && 0 <= req
      requires req + HEADER <= trueSize && Multiple(n, unit) && 2 * HEADER <= unit
      requires 0 < b - HEADER && b - HEADER in g.segs && orig + 2 * HEADER <= g.segs[b - HEADER] < n
      requires g.blocks[b].seg == b - HEADER
      requires forall c :: c in out <==> c == b + orig && c in g.blocks && g.blocks[c].kind.Free?
      requires forall c :: c in g.blocks && g.blocks[c].seg == b - HEADER ==>
                 c !in idx.size && !g.blocks[c].kind.Cached? && (InUse(g.blocks[c].kind) ==> c == b)
      requires forall c :: c in out ==> c in g.blocks && g.blocks[c].seg == b - HEADER
      requires (forall x :: LiveKept(m0, mem, g.blocks, g.blocks, x))
      requires Copied(m0, b + HEADER, mem, b + HEADER, orig - HEADER)
      modifies this`mem, this`freeBitmap, this`largeBitmap, this`restCount, this`idx, this`tidy, this`realSize,
               this`realPeak, this`size, this`peak, this`cached, this`storage, this`g, this`flushed
      ensures Valid() <==> out == {} || old(Resizable(base, storage, b - HEADER, n, hint))
      ensures !r.LimitError?
      ensures r.MemoryError? <==> !old(Resizable(base, storage, b - HEADER, n, hint))
      ensures out != {} && r.MemoryError? ==> Lost(b + orig)
      ensures r.Ptr? ==>
                && Valid() && flushed == old(flushed)
                && Resized(m0, mem, old(g).blocks, g.blocks, b + HEADER, r.address, req)
      ensures !r.Ptr? ==>
                cached == 0 && LiveKept(m0, mem, old(g).blocks, g.blocks, 0) && NoNewLive(old(g).blocks, g.blocks, 0)
      ensures r.Ptr? ==> RegrewBody(old(Now()), Now(), b, trueSize, n, hint, r.address, req)
      ensures !r.Ptr? ==>
                && cached == 0 && flushed == old(flushed) + old(cached) && size == old(size) && peak == old(peak)
                && realPeak == old(realPeak) && (forall s :: s in g.segs ==> s in old(g).segs && g.segs[s] == old(g).segs[s])
                && forall c :: c in g.blocks ==> !g.blocks[c].kind.Cached?
    {
      hide TileInv, TagsOutside, CachesRep, CachesListed, SegsRep, IndexInv, BitsOk, CountOk, LiveKept, NoNewLive,
           Coalesced, CoalescedBut, Sum, IndexedBut, Roomy, Resized, UsedOf, CachedOf, RegionFree, Resizable, AnyUnit,
           Copied, GrownBody, Multiple;
      ghost var b0, m1 := g.blocks, mem;
      var seg := StorageRealloc(b - HEADER, n, hint);
      if seg == 0 {
        OutAside(b0, b, out);
        FreeCache(out);
        LiveKeptTrans(m0, m1, mem, b0, b0, g.blocks, 0);
        if b + orig in out {
          Missing(idx, g.blocks, out, b + orig);
          assert out == {b + orig} by { forall c ensures c in out <==> c == b + orig { } }
          IsLost(b + orig);
        } else {
          forall c ensures c !in out { }
        }
        r := MemoryError;
      } else {
        ghost var u := Now();
        var q := FinishGrow(b, orig, b - HEADER, seg, n, trueSize, req, m0, m1, out);
        GrownAlike(old(Now()), u, Now(), b, trueSize, n, seg, q, req);
        r := Ptr(q);
      }
    }

    lemma IsLost(n: int)
      requires ValidBut({n}) && Aside({n})
      ensures Lost(n)
    {
      hide TileInv, TagsOutside, CachesRep, CachesListed, SegsRep, IndexInv, BitsOk, CountOk, Coalesced, Accounts,
           Sound, NoCached;
      assert n in {n};
      TagReads(base, g.segs, mem, g.blocks, n);
      IndexedFree(idx, g.blocks, {n});
    }

    /** The limit forbids the resize: the free block goes back to its list. */
    method GiveNext(next: int, ghost out: set<int>)
      requires Mid(out) && next in g.blocks && forall c :: c in out <==> c == next && g.blocks[next].kind.Free?
      modifies this`mem, this`freeBitmap, this`largeBitmap, this`idx
      ensures Mid({}) && forall x :: LiveKept(old(mem), mem, g.blocks, g.blocks, x)
    {
      hide TileInv, TagsOutside, CachesRep, CachesListed, SegsRep, IndexInv, BitsOk, CountOk, LiveKept, IndexedBut;
      TagReads(base, g.segs, mem, g.blocks, next);
      SelfKeptAll(mem, g.blocks);
      if Tag(mem, next) % 2 == 0 {
        GiveBack(next, out);
        forall c ensures c !in out - {next} { }
        assert out - {next} == {};
      } else {
        forall c ensures c !in out { }
        assert out == {};
      }
    }

    /** The resized region holds a copy of the segment; the heap has yet to be told. */
    ghost predicate Regrown(segCopy: int, seg: int, n: int, m0: Mem, u: int, out: set<int>)
      reads this
    {
      && BodyOk(m0, base, g) && IndexInv(m0, base, idx) && BitsOk(freeBitmap, largeBitmap, idx, tidy) && CountOk(restCount, idx)
      && IndexedBut(idx, g.blocks, out) && Coalesced(g.blocks) && segCopy in g.segs && g.segs[segCopy] < n
      && (forall c :: c in g.blocks && g.blocks[c].seg == segCopy ==>
            c !in idx.size && !g.blocks[c].kind.Cached? && (InUse(g.blocks[c].kind) ==> c == u))
      && (forall c :: c in out ==> c in g.blocks && g.blocks[c].seg == segCopy)
      && u in g.blocks && g.blocks[u].seg == segCopy && g.blocks[u].kind.Live?
      && RegionFree(base, g.segs - {segCopy}, seg, n) && storage == (g.segs - {segCopy})[seg := n]
      && (seg in g.segs ==> seg == segCopy)
      && Copied(m0, segCopy, mem, seg, g.segs[segCopy])
      && (forall w :: !(seg <= w < seg + n) ==> Rd(mem, w) == Rd(m0, w))
    }

    lemma RegrownParts(segCopy: int, seg: int, n: int, m0: Mem, u: int, out: set<int>)
      requires Regrown(segCopy, seg, n, m0, u, out)
      ensures segCopy in g.segs && IsLive(u) && Copied(m0, segCopy, mem, seg, g.segs[segCopy])
    {
      hide BodyOk, IndexInv, BitsOk, CountOk, IndexedBut, Coalesced, RegionFree, Copied;
    }

    method FinishGrow(b: int, orig: int, segCopy: int, seg: int, n: int, trueSize: int, ghost req: int,
        ghost m0: Mem, ghost m1: Mem, ghost out: set<int>)
      returns (q: int)
      requires Regrown(segCopy, seg, n, m1, b, out) && Accounts() && Sound() && g.caches.loose == -1
      requires Multiple(n, unit)
      requires 2 * HEADER <= unit
      requires orig == g.blocks[b].size && b == segCopy + HEADER && orig + 2 * HEADER <= g.segs[segCopy]
      requires orig < trueSize
      requires trueSize % 8 == 0 && MIN_BLOCK <= trueSize && trueSize + 2 * HEADER <= n && 0 <= req
      requires req + HEADER <= trueSize
      requires LiveKept(m0, m1, g.blocks, g.blocks, b) && Copied(m0, b + HEADER, m1, b + HEADER, orig - HEADER)
      modifies this`mem, this`freeBitmap, this`largeBitmap, this`restCount, this`idx, this`realSize, this`realPeak,
               this`size, this`peak, this`g
      ensures Valid() && Resized(m0, mem, old(g).blocks, g.blocks, b + HEADER, q, req)
      ensures GrownBody(old(Now()), Now(), b, trueSize, n, seg, q, req)
    {
      hide Carve, Placeable, TileInv, TagsOutside, CachesRep, CachesListed, SegsRep, IndexInv, BitsOk, CountOk,
           LiveKept, NoNewLive, Coalesced, CoalescedBut, Sum, IndexedBut, Roomy, Resized, UsedOf, CachedOf, RegionFree,
           RunReady, FreeRun, AnyUnit, PlacedIndex, UnitSegs, GrownBody, CutFrom, CutOff, AddSegment, DropSegment,
           Mid, Regrown, Copied, Multiple;
      ghost var b0, segs0, mr := g.blocks, g.segs, mem;
      RegrownParts(segCopy, seg, n, m1, b, out);
      var c := seg + HEADER;
      SumRemove(segs0, segCopy);
      AdoptSegment(segCopy, seg, n, m1, b, out);
      ghost var m2, b2 := mem, g.blocks;
      SumAdd(segs0 - {segCopy}, seg, n);
      var s := Place(c, n - 2 * HEADER, trueSize, true, req, c, {c});
      Charge(orig, s);
      GrownTotal(b2, g.blocks, c, s);
      UsedWithout(b0, b2, b);
      Tiled({});
      Bounds(base, g.segs, g.blocks, c);
      GrownCopy(m0, m1, mr, m2, mem, segCopy, seg, segs0[segCopy], orig, n, s);
      GrownLive(m0, m1, m2, mem, b0, b2, g.blocks, b, c, req);
      UnitSegsFewer(segs0, segs0 - {segCopy}, unit);
      UnitSegsSet(segs0 - {segCopy}, unit, seg, n);
      GrownFrom(old(Now()), Now(), b2, b, trueSize, n, seg, s, req);
      q := c + HEADER;
    }

    /** The heap takes over the resized region: size, list entry, first-block mark and guard. */
    method AdoptSegment(segCopy: int, seg: int, n: int, ghost m0: Mem, ghost u: int, ghost out: set<int>)
      requires Regrown(segCopy, seg, n, m0, u, out)
      modifies this`mem, this`realSize, this`realPeak, this`g
      ensures var b := seg + HEADER;
              && Placeable(b, n - 2 * HEADER, b, {b}) && b in g.blocks && g.blocks[b].kind.Free?
              && LiveKept(m0, mem, old(g).blocks, g.blocks, u) && NoNewLive(old(g).blocks, g.blocks, u) && !IsLive(u)
              && UsedOf(g.blocks) == UsedOf(old(g).blocks) - {u} && CachedOf(g.blocks) == CachedOf(old(g).blocks)
      ensures g.segs == (old(g).segs - {segCopy})[seg := n] && g.caches == old(g).caches
      ensures seg !in old(g).segs - {segCopy} && g.blocks == AddSegment(DropSegment(old(g).blocks, segCopy), seg, n)
      ensures realSize == old(realSize) + n - old(g).segs[segCopy]
      ensures realPeak == if realSize > old(realPeak) then realSize else old(realPeak)
      ensures forall w :: seg + 2 * HEADER <= w < seg + n - HEADER ==> Rd(mem, w) == Rd(old(mem), w)
    {
      hide BodyBut, IndexInv, BitsOk, CountOk, LiveKept, NoNewLive, Coalesced, CoalescedBut, IndexedBut, UsedOf,
           CachedOf, SamePayload, AddSegment, DropSegment, RegionFree, Wr, SegmentSet, SameButRegion, FreeRun, RunReady,
           Copied;
      ghost var at := WriteSegment(segCopy, seg, n, m0, u, out);
      MovedBody(m0, mem, base, g, idx, at, seg, n, out);
      BodyTiled(m0, base, g, 0, 0);
      MovedRun(base, g, idx, segCopy, seg, n, out);
      MovedLive(m0, mem, g.blocks, segCopy, u, seg, n);
      g := Body((g.segs - {segCopy})[seg := n], AddSegment(DropSegment(g.blocks, segCopy), seg, n), g.order[at := seg], g.caches);
    }

    method WriteSegment(segCopy: int, seg: int, n: int, ghost m0: Mem, ghost u: int, ghost out: set<int>)
      returns (ghost at: int)
      requires Regrown(segCopy, seg, n, m0, u, out)
      modifies this`mem, this`realSize, this`realPeak
      ensures 0 <= at < |g.order| && g.order[at] == segCopy && SegsInv(base, (g.segs - {segCopy})[seg := n])
      ensures SameButRegion(m0, mem, seg, seg + n, SlotAt(base, g.order, at))
      ensures Rd(mem, SlotAt(base, g.order, at)) == seg
      ensures SegmentSet(mem, seg, n, Rd(m0, segCopy + 8))
      ensures realSize == old(realSize) + n - g.segs[segCopy]
      ensures realPeak == if realSize > old(realPeak) then realSize else old(realPeak)
      ensures forall w :: seg + 2 * HEADER <= w < seg + n - HEADER ==> Rd(mem, w) == Rd(old(mem), w)
    {
      hide BodyBut, IndexInv, BitsOk, CountOk, Coalesced, IndexedBut, RegionFree, Wr, SegmentSet, SameButRegion, Copied,
           SegsInv;
      SegPlace(m0, base, g, segCopy);
      at :| 0 <= at < |g.order| && g.order[at] == segCopy;
      AdoptFacts(m0, mem, base, g, at, seg, n);
      AdoptWritten(m0, mem, base, g, at, seg, n);
      realSize := realSize + (n - Rd(mem, seg));
      if realSize > realPeak {
        realPeak := realSize;
      }
      mem := Wr(mem, seg, n);
      if seg != segCopy {
        var p := SegmentSlot(mem, base, segCopy, g.order, at);
        mem := Wr(mem, p, seg);
        mem := Wr(mem, seg + HEADER + 8, FIRST_MARK);
      }
      mem := Wr(mem, seg + n - HEADER, HEADER + 3);
    }

    // ---------- zend_mm_free_cache ----------

    /** Every cached block is released and every list is empty; `size` is left as it was. */
    method FreeCache(ghost aside: set<int>)
      requires ValidBut(aside) && Aside(aside)
      modifies this`mem, this`freeBitmap, this`largeBitmap, this`restCount, this`idx, this`tidy, this`realSize,
               this`cached, this`storage, this`g, this`flushed
      ensures ValidBut(aside) && Aside(aside) && cached == 0 && flushed == old(flushed) + old(cached)
      ensures forall i :: 0 <= i < NUM_BUCKETS ==> g.caches.lists[i] == [] && Rd(mem, CacheSlot(base, i)) == 0
      ensures forall c :: c in g.blocks ==> !g.blocks[c].kind.Cached?
      ensures LiveKept(old(mem), mem, old(g).blocks, g.blocks, 0) && NoNewLive(old(g).blocks, g.blocks, 0)
      ensures realSize <= old(realSize)
      ensures FlushedOut(old(Now()), Now())
    {
      hide TileInv, TagsOutside, CachesRep, CachesListed, SegsRep, IndexInv, BitsOk, CountOk, LiveKept, NoNewLive,
           Coalesced, Sum, IndexedBut;
      var i := 0;
      SelfKept(mem, g.blocks, 0);
      CacheLists(mem, base, g);
      while i < NUM_BUCKETS
        invariant 0 <= i <= NUM_BUCKETS && ValidBut(aside) && Aside(aside) && |g.caches.lists| == NUM_BUCKETS
        invariant realSize <= old(realSize)
        invariant forall j :: 0 <= j < i ==> g.caches.lists[j] == []
        invariant forall s :: s in g.segs ==> s in old(g).segs && g.segs[s] == old(g).segs[s]
        invariant flushed + cached == old(flushed + cached)
        invariant LiveKept(old(mem), mem, old(g).blocks, g.blocks, 0) && NoNewLive(old(g).blocks, g.blocks, 0)
      {
        ghost var m1, b1 := mem, g.blocks;
        FlushList(i, aside);
        LiveKeptTrans(old(mem), m1, mem, old(g).blocks, b1, g.blocks, 0);
        NoNewTrans(old(g).blocks, b1, g.blocks, 0);
        i := i + 1;
      }
      NothingCached(mem, base, g);
    }

    /** The list for one size is worked off from its head; the successor is read before the release. */
    method FlushList(i: int, ghost aside: set<int>)
      requires ValidBut(aside) && Aside(aside) && 0 <= i < NUM_BUCKETS && |g.caches.lists| == NUM_BUCKETS
      modifies this`mem, this`freeBitmap, this`largeBitmap, this`restCount, this`idx, this`tidy, this`realSize,
               this`cached, this`storage, this`g, this`flushed
      ensures ValidBut(aside) && Aside(aside) && g.caches.lists == old(g).caches.lists[i := []]
      ensures flushed + cached == old(flushed + cached) && realSize <= old(realSize)
      ensures LiveKept(old(mem), mem, old(g).blocks, g.blocks, 0) && NoNewLive(old(g).blocks, g.blocks, 0)
      ensures forall s :: s in g.segs ==> s in old(g).segs && g.segs[s] == old(g).segs[s]
    {
      hide TileInv, TagsOutside, CachesRep, CachesListed, SegsRep, IndexInv, BitsOk, CountOk, LiveKept, NoNewLive,
           Coalesced, Sum, IndexedBut, Roomy, SamePayload, UnitSegs;
      SelfKept(mem, g.blocks, 0);
      EmptyList(mem, base, g, i);
      if Rd(mem, CacheSlot(base, i)) != 0 {
        var block := Rd(mem, CacheSlot(base, i));
        Loosen(mem, base, g, i);
        g := g.(caches := Caches(g.caches.lists, i, block));
        while block != 0
          invariant Flushing(i, block, aside) && |g.caches.lists| == NUM_BUCKETS
          invariant g.caches.lists == old(g).caches.lists[i := g.caches.lists[i]]
          invariant forall s :: s in g.segs ==> s in old(g).segs && g.segs[s] == old(g).segs[s]
          invariant flushed + cached == old(flushed + cached) && realSize <= old(realSize)
          invariant LiveKept(old(mem), mem, old(g).blocks, g.blocks, 0) && NoNewLive(old(g).blocks, g.blocks, 0)
          decreases |g.caches.lists[i]|
        {
          ghost var m1, b1 := mem, g.blocks;
          block := FlushBlock(i, block, aside);
          LiveKeptTrans(old(mem), m1, mem, old(g).blocks, b1, g.blocks, 0);
          NoNewTrans(old(g).blocks, b1, g.blocks, 0);
        }
        Fasten(mem, base, g, idx, aside);
        ghost var m1 := mem;
        mem := Wr(mem, CacheSlot(base, i), 0);
        g := g.(caches := Caches(g.caches.lists, -1, 0));
        LiveKeptIndex(m1, mem, g.blocks, 0);
        LiveKeptTrans(old(mem), m1, mem, old(g).blocks, g.blocks, g.blocks, 0);
      }
    }

    /** A flush of list `i` has `block` as its next block. */
    ghost predicate Flushing(i: int, block: int, aside: set<int>)
      reads this
    {
      && Mid(aside) && Aside(aside) && Coalesced(g.blocks) && Accounts() && Sound()
      && 0 <= i < NUM_BUCKETS && g.caches.loose == i && g.caches.head == block
    }

    method FlushBlock(ghost i: int, block: int, ghost aside: set<int>) returns (q: int)
      requires Flushing(i, block, aside) && block != 0 && |g.caches.lists| == NUM_BUCKETS
      modifies this`mem, this`freeBitmap, this`largeBitmap, this`restCount, this`idx, this`tidy, this`realSize,
               this`cached, this`storage, this`g, this`flushed
      ensures Flushing(i, q, aside) && old(g).caches.lists[i] != []
      ensures g.caches.lists == old(g).caches.lists[i := old(g).caches.lists[i][1..]]
      ensures flushed + cached == old(flushed + cached) && realSize <= old(realSize)
      ensures LiveKept(old(mem), mem, old(g).blocks, g.blocks, 0) && NoNewLive(old(g).blocks, g.blocks, 0)
      ensures forall s :: s in g.segs ==> s in old(g).segs && g.segs[s] == old(g).segs[s]
    {
      hide TileInv, TagsOutside, CachesRep, CachesListed, SegsRep, IndexInv, BitsOk, CountOk, LiveKept, NoNewLive,
           Coalesced, Sum, IndexedBut, Roomy, Rekind, UsedOf, CachedOf, UnitSegs;
      ghost var b0 := g.blocks;
      LoosePop(mem, base, g, idx, aside);
      TagReads(base, g.segs, mem, b0, block);
      var size := Tag(mem, block) - Tag(mem, block) % 4;
      q := PrevF(mem, block);
      cached := cached - size;
      g := g.(blocks := Rekind(b0, block, Live(0)), caches := Popped(g.caches, i).(head := q));
      RekindAt(b0, block, Live(0));
      RekindCoalesced(b0, block, Live(0));
      RekindSums(b0, block, Live(0));
      CachedIn(b0, block);
      SumRemove(CachedOf(b0), block);
      SumRemove(UsedOf(b0), block);
      ghost var b1 := g.blocks;
      AsideRekind(b0, block, aside);
      ReleaseCached(block, size, aside);
      flushed := flushed + size;
      FlushedLive(old(mem), mem, b0, b1, g.blocks, block);
      UnitSegsFewer(old(g).segs, g.segs, unit);
      NotZero(base, g.segs, g.blocks);
      RoomyKept(old(mem), mem, b0, g.blocks, 0);
    }

    /** As `ReleaseBlock`, in the order of the flush: the block in front is taken first, and the run
        is tagged free before its segment may go. */
    method ReleaseCached(b: int, sz: int, ghost aside: set<int>)
      requires Mid(aside) && Aside(aside) && Coalesced(g.blocks) && IsLive(b) && sz == g.blocks[b].size
      requires Elsewhere(g.blocks, aside, g.blocks[b].seg)
      modifies this`mem, this`freeBitmap, this`largeBitmap, this`restCount, this`idx, this`tidy, this`realSize,
               this`storage, this`g
      ensures Mid(aside) && Aside(aside) && Coalesced(g.blocks) && !IsLive(b)
      ensures LiveKept(old(mem), mem, old(g).blocks, g.blocks, b) && NoNewLive(old(g).blocks, g.blocks, b)
      ensures UsedOf(g.blocks) == UsedOf(old(g).blocks) - {b} && CachedOf(g.blocks) == CachedOf(old(g).blocks)
      ensures g.caches == old(g).caches
      ensures Sum(g.segs) - realSize == old(Sum(g.segs) - realSize) && realSize <= old(realSize)
      ensures forall s :: s in g.segs ==> s in old(g).segs && g.segs[s] == old(g).segs[s]
    {
      hide TileInv, TagsOutside, CachesRep, CachesListed, SegsRep, IndexInv, BitsOk, CountOk, LiveKept, NoNewLive,
           Coalesced, Carve, DropSegment, RunReady, Sum, IndexedBut;
      ghost var b0, m0 := g.blocks, mem;
      var a, total, out := TakeNeighboursBack(b, sz, aside);
      Neighbourhood(base, g.segs, b0, b, a, a + total);
      RunOfFree(g.blocks, idx, a, a + total, b, out + aside);
      FinishFlush(a, total, b, out, m0, aside);
    }

    method TakeNeighboursBack(b: int, sz: int, ghost aside: set<int>) returns (a: int, total: int, ghost out: set<int>)
      requires Mid(aside) && Coalesced(g.blocks) && IsLive(b) && sz == g.blocks[b].size
      requires Elsewhere(g.blocks, aside, g.blocks[b].seg)
      modifies this`mem, this`freeBitmap, this`largeBitmap, this`restCount, this`idx, this`tidy
      ensures Mid(out + aside) && LiveKept(old(mem), mem, g.blocks, g.blocks, b)
      ensures a + total == RunEnd(g.blocks, b) && a == RunStart(g.blocks, b)
      ensures forall c :: c in out <==> c in g.blocks && a <= c < a + total && c != b
    {
      hide Mid, Coalesced, LiveKept, Elsewhere;
      ghost var b0, m0, taken := g.blocks, mem, aside;
      Around(b, aside);
      var more, front;
      a, front, taken := TakeBefore(b, aside);
      ghost var m1 := mem;
      more, taken := TakeBehind(b, sz, taken);
      total := sz + more + front;
      LiveKeptTrans(m0, m1, mem, b0, b0, b0, b);
      out := taken - aside;
      assert out + aside == taken;
      RunAround(b, a, a + total, out, taken);
    }

    method FinishFlush(a: int, total: int, ghost b: int, ghost out: set<int>, ghost m0: Mem, ghost aside: set<int>)
      requires Mid(out + aside) && Aside(aside) && Coalesced(g.blocks) && IsLive(b)
      requires FreeRun(g.blocks, a, a + total, b)
      requires forall c :: c in out <==> c in g.blocks && a <= c < a + total && c != b
      requires g.blocks[a].seg == g.blocks[a + total].seg && Elsewhere(g.blocks, aside, g.blocks[a].seg)
      requires RunReady(g.blocks, idx, a, a + total) && total >= MIN_BLOCK && total % 8 == 0
      requires !g.blocks[a + total].kind.Free?
      requires g.blocks[a].prev != 0 && a - g.blocks[a].prev in g.blocks ==> !g.blocks[a - g.blocks[a].prev].kind.Free?
      requires LiveKept(m0, mem, g.blocks, g.blocks, b)
      modifies this`mem, this`freeBitmap, this`largeBitmap, this`idx, this`realSize, this`storage, this`g
      ensures Mid(aside) && Aside(aside) && Coalesced(g.blocks) && !IsLive(b)
      ensures LiveKept(m0, mem, old(g).blocks, g.blocks, b) && NoNewLive(old(g).blocks, g.blocks, b)
      ensures UsedOf(g.blocks) == UsedOf(old(g).blocks) - {b} && CachedOf(g.blocks) == CachedOf(old(g).blocks)
      ensures g.caches == old(g).caches
      ensures Sum(g.segs) - realSize == old(Sum(g.segs) - realSize) && realSize <= old(realSize)
      ensures forall s :: s in g.segs ==> s in old(g).segs && g.segs[s] == old(g).segs[s]
    {
      hide TileInv, TagsOutside, CachesRep, CachesListed, SegsRep, IndexInv, BitsOk, CountOk, LiveKept, NoNewLive,
           Coalesced, CoalescedBut, Carve, DropSegment, RunReady, Sum, SamePayload, IndexedBut, UsedOf, CachedOf;
      var e := a + total;
      ghost var b0, m1, g0 := g.blocks, mem, g;
      BodyRun(mem, base, g, a, e);
      CoalescedRun(b0, a, e);
      AsideCarve(base, g.segs, b0, a, e, aside);
      Recut(a, total, total, 0, 0, Free, Free, out, aside);
      ghost var m2, b1 := mem, g.blocks;
      CarveLive(g0, m1, mem, a, e, total, Free, Free, b);
      CarveUsed(b0, a, e, total, Free, b);
      CarveAt(b0, a, e, total, Free, Free, a);
      CarveAt(b0, a, e, total, Free, Free, e);
      assert NewFree(a, e, total, Free, Free) == {a};
      TagReads(base, g.segs, mem, b1, a);
      TagReads(base, g.segs, mem, b1, e);
      LiveKeptTrans(m0, m1, m2, b0, b0, b1, b);
      if PrevTag(mem, a) == FIRST_MARK && Tag(mem, e) % 4 == 3 {
        CarveApart(base, g0.segs, b0, a, e);
        DropFree(a, e, b, m0, b0, aside);
      } else {
        CarveCoalesced(base, g0.segs, b0, a, e, total, Free, Free);
        GiveBack(a, {a} + aside);
        assert {a} + aside - {a} == aside;
        LiveKeptTrans(m0, m2, mem, b0, b1, b1, b);
      }
    }

    /** A segment that is one free block, tagged but not indexed, goes back to the storage. */
    method DropFree(a: int, ghost e: int, ghost b: int, ghost m0: Mem, ghost b0: Blocks, ghost aside: set<int>)
      requires Mid({a} + aside) && Aside(aside) && a in g.blocks && Elsewhere(g.blocks, aside, g.blocks[a].seg)
      requires g.blocks[a] == Blk(e - a, Free, 0, g.blocks[a].seg) && a < e
      requires e in g.blocks && g.blocks[e].kind.Guard? && g.blocks[e].seg == g.blocks[a].seg
      requires forall c {:trigger FreeApart(g.blocks, c)} :: c in g.blocks && g.blocks[c].seg != g.blocks[a].seg ==>
                FreeApart(g.blocks, c)
      requires LiveKept(m0, mem, b0, g.blocks, b) && NoNewLive(b0, g.blocks, b) && !IsLive(b)
      modifies this`mem, this`realSize, this`storage, this`g
      ensures Mid(aside) && Aside(aside) && Coalesced(g.blocks) && !IsLive(b) && g.caches == old(g).caches
      ensures LiveKept(m0, mem, b0, g.blocks, b) && NoNewLive(b0, g.blocks, b)
      ensures UsedOf(g.blocks) == UsedOf(old(g).blocks) && CachedOf(g.blocks) == CachedOf(old(g).blocks)
      ensures Sum(g.segs) - realSize == old(Sum(g.segs) - realSize) && realSize <= old(realSize)
      ensures forall s :: s in g.segs ==> s in old(g).segs && g.segs[s] == old(g).segs[s]
    {
      hide TileInv, TagsOutside, CachesRep, CachesListed, SegsRep, IndexInv, BitsOk, CountOk, LiveKept, NoNewLive,
           Coalesced, DropSegment, Sum, SamePayload, UsedOf, CachedOf, FreeApart;
      ghost var b1, m1, g1 := g.blocks, mem, g;
      ghost var seg := b1[a].seg;
      WholeSegment(base, g.segs, b1, a, e);
      IndexedFree(idx, b1, {a} + aside);
      forall c | c in b1 && b1[c].seg == seg ensures c == a || c == e { Order(base, g.segs, b1, a, c); }
      DelSegment(a - HEADER, {a}, aside);
      AsideDrop(b1, seg, aside);
      DropLive(g1, m1, mem, seg, a);
      DropCoalesced(b1, seg);
      SumRemove(g1.segs, seg);
      SegmentOutside(base, g1.segs, b1, seg);
      FreeNotUsed(b1, a);
      DropFreeLive(m0, m1, mem, b0, b1, g.blocks, a, b);
    }

    // ---------- zend_mm_add_to_free_list ----------

    method AddToFreeList(b: int)
      requires IndexOk() && Addable(b, Tag(mem, b))
      modifies this`mem, this`freeBitmap, this`largeBitmap, this`idx
      ensures IndexOk()
      ensures idx == AddFree(old(idx), b, old(Tag(mem, b)))
      ensures IndexFrame(old(mem), mem, base, idx.size)
    {
      hide IndexInv, BitsOk, RestLarge, Spread, IndexFrame, AddSmall, AddTrie;
      var size := Tag(mem, b);
      AddFreeDefined(mem, base, idx, b, size);
      CountAddFree(idx, b, size);
      if !Small(size) {
        AddLarge(b, size);
      } else {
        AddSmallBlock(b, size);
      }
    }

    method AddSmallBlock(b: int, size: int)
      requires IndexOk() && Addable(b, size) && size < MAX_SMALL
      modifies this`mem, this`freeBitmap, this`idx
      ensures IndexInv(mem, base, idx) && BitsOk(freeBitmap, largeBitmap, idx, tidy)
      ensures |old(idx).smalls| == NUM_BUCKETS && 0 <= BucketIndex(size) < NUM_BUCKETS
      ensures idx == AddSmall(old(idx), b, size)
      ensures IndexFrame(old(mem), mem, base, idx.size)
    {
      hide IndexInv, BitsOk, CountOk, Spread, IndexFrame, OnlyGroup, SetBit, Placed, Shaped, Wr;
      IndexParts(mem, base, idx);
      NewBlock(base, idx.size, b, size);
      var index := BucketIndex(size);
      var prev := SmallHead(base, index);
      SmallAdded(mem, base, idx, b, size);
      SmallEmpty(mem, base, idx, index);
      BitsAddSmall(freeBitmap, largeBitmap, idx, tidy, b, size);
      GroupFrame(mem, Splice(mem, prev, NextF(mem, prev), b), base, idx, InSmall(index), b, size);
      if PrevF(mem, prev) == prev {
        freeBitmap := SetBit(freeBitmap, index);
      }
      var next := NextF(mem, prev);
      mem := Wr(mem, b + 16, prev);
      mem := Wr(mem, b + 24, next);
      mem := Wr(mem, next + 16, b);
      mem := Wr(mem, prev + 24, b);
      idx := AddSmall(idx, b, size);
    }

    method AddLarge(b: int, size: int)
      requires IndexOk() && Addable(b, size) && size >= MAX_SMALL
      modifies this`mem, this`largeBitmap, this`idx
      ensures IndexInv(mem, base, idx) && BitsOk(freeBitmap, largeBitmap, idx, tidy)
      ensures |old(idx).tries| == NUM_BUCKETS && Shaped(old(idx))
      ensures idx == AddTrie(old(idx), b, size)
      ensures IndexFrame(old(mem), mem, base, idx.size)
    {
      hide IndexInv, BitsOk, CountOk, Spread, IndexFrame, OnlyGroup, SetBit, Rep, Shape, Members, Insert, Shr, Log2;
      var index := HighBit(size);
      Log2Leading(size, index);
      IndexParts(mem, base, idx);
      ghost var x := idx;
      BitsAddTrie(freeBitmap, largeBitmap, idx, tidy, b, size);
      var p := LargeSlot(base, index);
      TrieInsert(b, size, index);
      TrieAdded(old(mem), mem, base, x, b, size);
      GroupFrame(old(mem), mem, base, x, InTrie(index), b, size);
      idx := AddTrie(idx, b, size);
    }

    /** The trie of bucket `index` takes `b`: an empty root, or a descent by the bits of the size. */
    method TrieInsert(b: int, size: nat, index: nat)
      requires IndexInv(mem, base, idx) && Addable(b, size) && size >= MAX_SMALL
      requires index < NUM_BUCKETS && Shr(size, index) == 1
      modifies this`mem, this`largeBitmap
      ensures |idx.tries| == NUM_BUCKETS && Shape(idx.tries[index], index, 1)
      ensures Rep(mem, LargeSlot(base, index), Insert(idx.tries[index], b, size, index))
      ensures SameBut(old(mem), mem, LargeSlot(base, index), Members(idx.tries[index]) + {b})
      ensures Tag(mem, b) == size
      ensures largeBitmap == if idx.tries[index] == Nil then SetBit(old(largeBitmap), index) else old(largeBitmap)
    {
      ghost var t := idx.tries[index];
      TrieFacts(mem, base, idx, index);
      TrieFactsNew(mem, base, idx, index, b, size);
      RootSlot(mem, LargeSlot(base, index), t);
      hide IndexInv, Spread, SetBit, Rep, Shape, Members, Insert, Shr, Apart, Disjoint;
      var p := LargeSlot(base, index);
      ghost var m0 := Wr(Wr(mem, ChildSlot(b, 0), 0), ChildSlot(b, 1), 0);
      ClearedBlock(mem, m0, p, t, b, size);
      mem := Wr(mem, ChildSlot(b, 0), 0);
      mem := Wr(mem, ChildSlot(b, 1), 0);
      if Rd(mem, p) == 0 {
        ghost var m1 := LeafWrites(mem, p, b);
        NilInsert(mem, m1, p, t, b, size, index);
        mem := Wr(mem, p, b);
        mem := Wr(mem, b + 32, p);
        mem := Wr(mem, b + 16, b);
        mem := Wr(mem, b + 24, b);
        largeBitmap := SetBit(largeBitmap, index);
        SameButTrans(old(mem), m0, mem, p, Members(t) + {b}, Members(t) + {b}, Members(t) + {b});
      } else {
        TrieDescend(b, size, index, t);
        SameButTrans(old(mem), m0, mem, p, Members(t) + {b}, Members(t) + {b}, Members(t) + {b});
      }
    }

    /** The descent by the bits of the size, then the link writes at the place it found. */
    method TrieDescend(b: int, size: nat, index: nat, ghost t: Trie)
      requires index < NUM_BUCKETS && Shr(size, index) == 1 && Shape(t, index, 1) && t.Node?
      requires Rep(mem, LargeSlot(base, index), t) && Disjoint(t) && b !in Members(t)
      requires Apart(Members(t) + {b}) && SlotClear(LargeSlot(base, index), Members(t) + {b}) && 0 !in Members(t)
      requires base > 0 && forall a :: a in Members(t) ==> a > 0
      requires Tag(mem, b) == size && Child(mem, b, 0) == 0 && Child(mem, b, 1) == 0
      modifies this`mem
      ensures Rep(mem, LargeSlot(base, index), Insert(t, b, size, index))
      ensures SameBut(old(mem), mem, LargeSlot(base, index), Members(t) + {b})
      ensures Tag(mem, b) == size
    {
      var slot := LargeSlot(base, index);
      assert slot > 0;
      hide *;
      var prev, p, k := InsertPoint(mem, slot, b, size, index, t);
      if p != 0 {
        LeafInserted(mem, LeafWrites(mem, p, b), slot, t, prev, Shr(size, k - 1) % 2, b, size, k);
        WriteLeaf(p, b);
      } else {
        var next := NextF(mem, prev);
        RingInserted(mem, RingWrites(mem, prev, next, b), slot, t, prev, b, size, k);
        WriteRing(prev, next, b);
      }
    }

    // ---------- zend_mm_remove_from_free_list ----------

    method RemoveFromFreeList(b: int)
      requires IndexOk() && b in idx.size
      modifies this`mem, this`freeBitmap, this`largeBitmap, this`restCount, this`idx, this`tidy
      ensures IndexOk()
      ensures Placed(old(idx)) && Shaped(old(idx)) && idx == RemoveFree(old(idx), b)
      ensures IndexFrame(old(mem), mem, base, old(idx).size)
      ensures TakenOff(old(mem), base, old(idx), old(freeBitmap), idx, freeBitmap, b)
      ensures tidy == (old(tidy) && !LosesBit(old(idx), b))
    {
      hide IndexInv, BitsOk, Placed, Shaped, RestLarge, IndexFrame, RemoveFree;
      LinksSafe(mem, base, idx, b);
      CountRemove(idx, b);
      var prev, next := PrevF(mem, b), NextF(mem, b);
      if prev == b {
        assert next == b;                                           // no panic at the lone-block test
        RemoveLone(b);
      } else {
        assert NextF(mem, prev) == b && PrevF(mem, next) == b;      // no panic at the ring test
        RemoveLinked(b, prev, next);
      }
    }

    /** A block that is its own neighbour: a trie node whose ring has no other block. */
    method RemoveLone(b: int)
      requires IndexOk() && b in idx.size && b in idx.loc && idx.loc[b].InTrie? && PrevF(mem, b) == b
      modifies this`mem, this`largeBitmap, this`idx
      ensures IndexInv(mem, base, idx) && BitsOk(freeBitmap, largeBitmap, idx, tidy)
      ensures Placed(old(idx)) && Shaped(old(idx)) && idx == RemoveFree(old(idx), b)
      ensures IndexFrame(old(mem), mem, base, old(idx).size) && old(idx).size[b] >= MAX_SMALL
      ensures !LosesBit(old(idx), b)
    {
      hide IndexInv, BitsOk, CountOk, Placed, Shaped, IndexFrame, RemoveFree, OnlyGroup, ClearBit, Wr, SubstWrites,
           SubstReady, HeadOf, Sub, Leaf, Log2;
      LinksSafe(mem, base, idx, b);
      ghost var i := idx.loc[b].i;
      TrieNode(mem, base, idx, b, i);
      TrieBucket(mem, base, idx, b);
      TrieSizeBound(mem, base, idx, b);
      var c := if Child(mem, b, 1) != 0 then 1 else 0;
      if Child(mem, b, c) == 0 {
        var index := HighBit(Tag(mem, b));
        Log2Leading(idx.size[b], index);
        CaseLeaf(mem, base, idx, b, i);
        BitsRemoveTrie(freeBitmap, largeBitmap, idx, tidy, b, i, Parent(mem, b) == LargeSlot(base, i));
        var parent := Parent(mem, b);
        assert Rd(mem, parent) == b;                                // no panic at the tree test
        GroupFrame(mem, Wr(mem, parent, 0), base, idx, InTrie(i), b, idx.size[b]);
        SameMap(idx.size, b);
        mem := Wr(mem, parent, 0);
        if parent == LargeSlot(base, index) {
          largeBitmap := ClearBit(largeBitmap, index);
        }
      } else {
        ghost var u := LeafTree(mem, base, idx, b, i, c);
        var g, rp := FindLeaf(mem, b, c, u);
        CaseLeafSwap(mem, base, idx, b, i, c, u, g, rp);
        BitsRemoveTrie(freeBitmap, largeBitmap, idx, tidy, b, i, false);
        ghost var m1 := Wr(mem, rp, 0);
        GroupFrame(mem, SubstWrites(m1, Parent(m1, b), b, g), base, idx, InTrie(i), b, idx.size[b]);
        SameMap(idx.size, b);
        mem := Wr(mem, rp, 0);
        Substitute(b, g);
      }
      idx := RemoveFree(idx, b);
    }

    /** A block with neighbours: it leaves its ring; then the bitmap, the rest counter or the trie
        follows, as the kind of ring demands. */
    method RemoveLinked(b: int, prev: int, next: int)
      requires IndexOk() && b in idx.size && prev == PrevF(mem, b) && next == NextF(mem, b) && prev != b
      modifies this`mem, this`freeBitmap, this`restCount, this`idx, this`tidy
      ensures IndexInv(mem, base, idx) && BitsOk(freeBitmap, largeBitmap, idx, tidy)
      ensures Placed(old(idx)) && Shaped(old(idx)) && idx == RemoveFree(old(idx), b)
      ensures b in old(idx).loc
      ensures restCount == old(restCount) - (if old(idx).loc[b] == InRest && old(idx).size[b] >= MAX_SMALL then 1 else 0)
      ensures IndexFrame(old(mem), mem, base, old(idx).size)
      ensures old(idx).size[b] < MAX_SMALL ==>
                && 0 <= BucketIndex(old(idx).size[b])
                && freeBitmap == BitmapAfter(old(mem), base, b, old(idx).size[b], old(freeBitmap))
      ensures tidy == (old(tidy) && !LosesBit(old(idx), b))
    {
      hide IndexInv, BitsOk, CountOk, Placed, Shaped, IndexFrame, RemoveFree, OnlyGroup, ClearBit, Wr, SubstWrites,
           SubstReady;
      LinksSafe(mem, base, idx, b);
      var size := Tag(mem, b);
      ghost var x, m0 := idx, mem;
      mem := Wr(mem, prev + 24, next);
      mem := Wr(mem, next + 16, prev);
      if Small(size) {
        var index := BucketIndex(size);
        RemovedSmall(m0, base, x, b, freeBitmap, largeBitmap, tidy);
        if prev == next {
          if Rd(mem, SmallHead(base, index) + 16) == Rd(mem, SmallHead(base, index) + 24) {
            freeBitmap := ClearBit(freeBitmap, index);
          }
        }
      } else if Parent(mem, b) == REST_MARK {
        RemovedLargeRest(m0, base, x, b, freeBitmap, largeBitmap, tidy);
        restCount := restCount - 1;
      } else {
        RemovedLargeRing(m0, base, x, b, freeBitmap, largeBitmap, tidy);
        if Parent(mem, b) != 0 {
          Substitute(b, prev);
        }
      }
      tidy := tidy && !LosesBit(idx, b);
      idx := RemoveFree(idx, b);
    }

    /** The `subst_block` code: `g` takes the place of `b` in the tree. */
    method Substitute(b: int, g: int)
      requires SubstReady(mem, Parent(mem, b), b, g)
      modifies this`mem
      ensures mem == SubstWrites(old(mem), old(Parent(mem, b)), b, g)
    {
      var parent := Parent(mem, b);
      assert Rd(mem, parent) == b;                                  // no panic at the tree test
      mem := Wr(mem, parent, g);
      mem := Wr(mem, g + 32, parent);
      var c0 := Child(mem, b, 0);
      mem := Wr(mem, ChildSlot(g, 0), c0);
      if c0 != 0 {
        assert Rd(mem, Parent(mem, c0)) == c0;                      // nor for its children
        mem := Wr(mem, c0 + 32, ChildSlot(g, 0));
      }
      var c1 := Child(mem, b, 1);
      mem := Wr(mem, ChildSlot(g, 1), c1);
      if c1 != 0 {
        assert Rd(mem, Parent(mem, c1)) == c1;
        mem := Wr(mem, c1 + 32, ChildSlot(g, 1));
      }
    }

    // ---------- zend_mm_add_to_rest_list ----------

    /** `b` joins the rest list; when it is full, blocks leave it oldest first, up to and including
        the first large one. */
    method AddToRestList(b: int)
      requires IndexOk() && Addable(b, Tag(mem, b))
      modifies this`mem, this`freeBitmap, this`largeBitmap, this`restCount, this`idx
      ensures IndexOk()
      ensures idx.size == old(idx).size[b := old(Tag(mem, b))]
      ensures exists e :: Evicted(old(idx), old(restCount), e) && idx.rest == old(idx).rest[e..] + [b]
      ensures old(restCount) < MAX_REST ==> JoinedRest(old(idx), old(freeBitmap), idx, freeBitmap, b, old(Tag(mem, b)))
      ensures IndexFrame(old(mem), mem, base, idx.size)
    {
      hide IndexInv, BitsOk, RestLarge, Spread, IndexFrame, Wr, OnlyGroup;
      var size := Tag(mem, b);
      ghost var e := EvictWhileFull(b, size);
      ghost var m := mem;
      Settle(b, size);
      FrameTrans(old(mem), m, mem, base, idx.size);
    }

    /** The loop over the full list. */
    method EvictWhileFull(b: int, size: int) returns (ghost e: int)
      requires IndexOk() && Addable(b, size)
      modifies this`mem, this`freeBitmap, this`largeBitmap, this`restCount, this`idx
      ensures IndexOk() && Addable(b, size) && restCount < MAX_REST
      ensures Evicted(old(idx), old(restCount), e) && idx.rest == old(idx).rest[e..]
      ensures idx.size == old(idx).size
      ensures old(restCount) < MAX_REST ==> idx == old(idx) && freeBitmap == old(freeBitmap)
      ensures IndexFrame(old(mem), mem, base, idx.size[b := size])
    {
      hide IndexInv, BitsOk, RestLarge, Spread, IndexFrame;
      e := 0;
      FrameRefl(mem, base, idx.size[b := size]);
      while restCount >= MAX_REST
        invariant IndexOk() && Addable(b, size)
        invariant 0 <= e <= |old(idx).rest| && idx.rest == old(idx).rest[e..] && idx.size == old(idx).size
        invariant e == 0 ==> restCount == old(restCount) && idx == old(idx) && freeBitmap == old(freeBitmap)
        invariant e > 0 ==>
                  && old(restCount) >= MAX_REST
                  && restCount == old(restCount) - (if LargeIn(old(idx), old(idx).rest[e - 1]) then 1 else 0)
        invariant forall k :: 0 <= k < e - 1 ==> !LargeIn(old(idx), old(idx).rest[k])
        invariant IndexFrame(old(mem), mem, base, idx.size[b := size])
        decreases |idx.rest|
      {
        ghost var m := mem;
        FullRest(mem, base, idx, restCount);
        EvictOldest(b, size);
        FrameWider(m, mem, base, idx.size, idx.size[b := size]);
        FrameTrans(old(mem), m, mem, base, idx.size[b := size]);
        e := e + 1;
      }
    }

    /** The oldest rest block moves to the list its size belongs to. */
    method EvictOldest(ghost b: int, ghost size: int)
      requires IndexOk() && Addable(b, size) && idx.rest != []
      modifies this`mem, this`freeBitmap, this`largeBitmap, this`restCount, this`idx
      ensures IndexOk() && Addable(b, size)
      ensures idx.rest == old(idx).rest[1..] && idx.size == old(idx).size
      ensures old(idx).rest[0] in old(idx).size
      ensures restCount == old(restCount) - (if LargeIn(old(idx), old(idx).rest[0]) then 1 else 0)
      ensures IndexFrame(old(mem), mem, base, idx.size)
    {
      hide IndexInv, BitsOk, RestLarge, Spread, IndexFrame, Wr, OnlyGroup, Placed, Shaped, RemoveFree, AddFree, Unlink;
      var p := NextF(mem, RestHead(base));
      ghost var x, m0 := idx, mem;
      OldestOut(mem, base, idx, freeBitmap, largeBitmap, tidy, p);
      CountRemove(idx, p);
      if !Small(Tag(mem, p)) {
        restCount := restCount - 1;
      }
      var prev, next := PrevF(mem, p), NextF(mem, p);
      UnlinkIs(mem, prev, next);
      mem := Wr(mem, prev + 24, next);
      mem := Wr(mem, next + 16, prev);
      idx := RemoveFree(idx, p);
      ghost var m1 := mem;
      AddToFreeList(p);
      BackIn(x, p);
      FrameTrans(m0, m1, mem, base, idx.size);
      StillAddable(m0, mem, base, idx, b, size);
    }

    /** The block itself goes to the young end of the rest list. */
    method Settle(b: int, size: int)
      requires IndexOk() && Addable(b, size) && restCount < MAX_REST
      modifies this`mem, this`restCount, this`idx
      ensures IndexOk() && idx == AddRest(old(idx), b, size)
      ensures IndexFrame(old(mem), mem, base, idx.size)
    {
      hide IndexInv, BitsOk, RestLarge, Spread, IndexFrame, OnlyGroup, Placed, Shaped;
      IndexParts(mem, base, idx);
      NewBlock(base, idx.size, b, size);
      CountAddRest(idx, b, size);
      ghost var m0, m1 := mem, if Small(size) then mem else Wr(mem, b + 32, REST_MARK);
      MarkWritten(m0, m1, base, idx, b, size);
      if !Small(size) {
        mem := Wr(mem, b + 32, REST_MARK);
        restCount := restCount + 1;
      }
      RestAdded(mem, base, idx, b, size);
      BitsAddRest(freeBitmap, largeBitmap, idx, tidy, b, size);
      var prev := PrevF(mem, RestHead(base));
      var next := NextF(mem, prev);
      GroupFrame(mem, Splice(mem, prev, next, b), base, idx, InRest, b, size);
      hide Wr;
      mem := Wr(mem, b + 16, prev);
      mem := Wr(mem, b + 24, next);
      mem := Wr(mem, next + 16, b);
      mem := Wr(mem, prev + 24, b);
      FrameTrans(m0, m1, mem, base, idx.size[b := size]);
      idx := AddRest(idx, b, size);
    }

    method WriteLeaf(p: int, b: int)
      modifies this`mem
      ensures mem == LeafWrites(old(mem), p, b)
    {
      mem := Wr(mem, p, b);
      mem := Wr(mem, b + 32, p);
      mem := Wr(mem, b + 16, b);
      mem := Wr(mem, b + 24, b);
    }

    method WriteRing(prev: int, next: int, b: int)
      modifies this`mem
      ensures mem == RingWrites(old(mem), prev, next, b)
    {
      mem := Wr(mem, next + 16, b);
      mem := Wr(mem, prev + 24, b);
      mem := Wr(mem, b + 24, next);
      mem := Wr(mem, b + 16, prev);
      mem := Wr(mem, b + 32, 0);
    }
  }
}
