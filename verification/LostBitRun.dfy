/** A client run that loses the bit of a non-empty bucket (zend_alloc.c, the small branch of
    `zend_mm_remove_from_free_list`, for a block on the rest list). */
module LostBitRun {
  import opened Words
  import opened Memory
  import opened Index
  import opened IndexOps
  import opened Bitmaps
  import opened IndexSteps
  import opened Tiling
  import opened HeapMemory
  import opened HeapOps
  import opened HeapFacts
  import opened FreeSearch
  import opened Sums
  import opened HeapEffects
  import opened ZendHeap
  import opened LostBits
  import opened LostBlock

  const SECOND_AT: int := 131072
  const FIRST_FREE: int := SEG_AT + HEADER + 120         // 104 free bytes behind the first block
  const SECOND_FREE: int := SECOND_AT + HEADER + 376     // 104 free bytes behind the second

  /** Blocks of 120 and 376 bytes, each with 104 free bytes behind it: the first 104 in their bucket,
      the second on the rest list. Growing the second block over them clears the bit of the bucket. */
  method LoseBit(m: Mem) returns (h: Heap, r: Outcome)
    ensures fresh(h) && h.Valid() && r == Ptr(SECOND_AT + 2 * HEADER)
    ensures |h.idx.smalls| == NUM_BUCKETS && h.idx.smalls[9] == [FIRST_FREE] && !Bit(h.freeBitmap, 9)
  {
    hide Heap.Valid, NewSegmentFor, Granted, Resized, TrueSize, SegmentSize, RegionFree, Refused, MustOpen, TakenOff,
         JoinedRest, Heap.LosesNext, Heap.Lost, TakesAll, NothingFits, ExactBits, Bit, CacheHit, FiledAs, AllocEffect, ResizeEffect;
    Sizes();
    MoreSizes();
    UnitIsGood();
    h := new Heap(HEAP_AT, UNIT, m);
    StorageNow(h);
    ghost var g0 := h.g;
    NothingFree(h);
    Opens(h, 120);
    Allowed();
    ghost var x0 := h.idx;
    var a := h.AllocInt(100, SEG_AT);
    FirstBlocks(g0, h.g, a.address);
    RestAsBefore(x0, h.idx, FIRST_FREE, 104);
    FirstIndex(h);
    Opens(h, 376);
    StorageNow(h);
    RoomForSecond(h);
    ghost var x, fb, g1 := h.idx, h.freeBitmap, h.g;
    var b := h.AllocInt(360, SECOND_AT);
    SecondBlocks(g1, h.g, b.address);
    Grows(h, b.address);
    ghost var m2, y := h.mem, h.idx;
    Joined(h, x, fb);
    r := h.ReallocInt(b.address, 464, 0);
    BitLost(m2, x, y, h.idx, fb, h.freeBitmap);
  }

  lemma MoreSizes()
    ensures TrueSize(360) == 376 && TrueSize(464) == 480 && SegmentSize(376, UNIT) == 512
    ensures !Oversize(120, UNIT) && Oversize(376, UNIT) && BucketIndex(104) == 9
  {
  }

  lemma NothingFree(h: Heap)
    requires h.Valid() && h.g.blocks == map[]
    ensures FreeOf(h.g.blocks) == map[] && h.idx.rest == []
    ensures forall c :: c in h.g.blocks ==> !h.g.blocks[c].kind.Cached?
  {
    hide BodyOk, IndexInv, Coalesced, Heap.Accounts, Heap.Sound;
    RestMembers(h.mem, h.base, h.idx);
    if h.idx.rest != [] { var a := HeadOf(h.idx.rest); assert false; }
  }

  /** Filing a small block leaves the rest list alone. */
  lemma RestAsBefore(x: Index, x': Index, b: int, s: int)
    requires FiledAs(x, x', b, s) && s < MAX_SMALL && x.rest == []
    ensures x'.rest == []
  {
  }

  /** Without cached blocks, and with smaller free blocks only, a new segment is opened. */
  lemma Opens(h: Heap, t: nat)
    requires h.Valid() && (forall c :: c in h.g.blocks ==> !h.g.blocks[c].kind.Cached?)
    requires MIN_BLOCK <= t && t % 8 == 0 && forall c :: c in FreeOf(h.g.blocks) ==> FreeOf(h.g.blocks)[c] < t
    ensures MustOpen(h.Now(), t) && !CacheHit(h.Now(), t)
  {
    hide TileInv, TagsOutside, CachesRep, CachesListed, SegsRep, Heap.IndexOk, Coalesced, Heap.Accounts, Heap.Sound,
         FreeOf;
    if Small(t) {
      var i := BucketIndex(t);
      EmptyList(h.mem, h.base, h.g, i);
      NoneCached(h.g, i);
    }
    assert h.idx.size == FreeOf(h.g.blocks);
  }

  lemma FirstBlocks(g: Body, g': Body, p: int)
    requires g.blocks == map[] && g.segs == map[] && NewSegmentFor(g, g', p, SEG_AT, 120, UNIT, 100)
    ensures FreeOf(g'.blocks) == map[FIRST_FREE := 104] && g'.segs == map[SEG_AT := 256] && p == SEG_AT + 2 * HEADER
    ensures forall c :: c in g'.blocks ==> !g'.blocks[c].kind.Cached?
  {
    Sizes();
    hide SegmentSize;
    FirstLayout(g'.blocks);
    forall c | c in FreeOf(g'.blocks) ensures c == FIRST_FREE { }
  }

  /** The index of a tidy heap with one free block of 104 bytes. */
  lemma FirstIndex(h: Heap)
    requires h.Valid() && h.tidy && h.idx.rest == [] && FreeOf(h.g.blocks) == map[FIRST_FREE := 104]
    ensures |h.idx.smalls| == NUM_BUCKETS && h.idx.smalls[9] == [FIRST_FREE] && ExactBits(h.freeBitmap, h.idx)
    ensures h.restCount < MAX_REST && h.idx.size == map[FIRST_FREE := 104]
  {
    hide BodyOk, IndexInv, Coalesced, Heap.Accounts, Heap.Sound, FreeOf, Bit;
    var x := h.idx;
    assert x.size == map[FIRST_FREE := 104];
    RestMembers(h.mem, h.base, x);
    OneSmall(h.mem, h.base, x);
    assert RestLarge(x) == {} by { forall a ensures a !in RestLarge(x) { } }
  }

  lemma OneSmall(m: Mem, h: int, x: Index)
    requires IndexInv(m, h, x) && x.size == map[FIRST_FREE := 104] && x.rest == []
    ensures |x.smalls| == NUM_BUCKETS && x.smalls[9] == [FIRST_FREE]
  {
    hide Linked, Spread, Marked, Shaped;
    var s := x.smalls[9];
    SmallMembers(m, h, x, 9);
    assert FIRST_FREE in x.loc && x.loc[FIRST_FREE] == InSmall(9);
    assert FIRST_FREE in s;
    forall i | 0 <= i < |s| ensures s[i] == FIRST_FREE { assert s[i] in s; }
    RingTail(m, SmallHead(h, 9), s);
    Alone(s);
  }

  lemma Alone(s: seq<int>)
    requires Memory.Distinct(s) && FIRST_FREE in s && forall i :: 0 <= i < |s| ==> s[i] == FIRST_FREE
    ensures s == [FIRST_FREE]
  {
    if |s| > 1 { Differ(s); assert false; }
  }

  lemma Differ(s: seq<int>) requires Memory.Distinct(s) && |s| > 1 ensures s[0] != s[1] { }

  lemma HeadOf(s: seq<int>) returns (a: int)
    requires s != []
    ensures a in s
  {
    a := s[0];
  }

  lemma RoomForSecond(h: Heap)
    requires h.storage == h.g.segs == map[SEG_AT := 256] && h.realSize == Sum(h.g.segs)
    ensures !Refused(376, UNIT, h.realSize, HALF_WORD / 2) && RegionFree(HEAP_AT, h.storage, SECOND_AT, 512)
  {
    MoreSizes();
    hide SegmentSize;
    SumAdd(map[], SEG_AT, 256);
    EmptyAccounts();
    assert map[SEG_AT := 256] == map[][SEG_AT := 256];
  }

  lemma SecondBlocks(g: Body, g': Body, p: int)
    requires NewSegmentFor(g, g', p, SECOND_AT, 376, UNIT, 360)
    requires forall c :: c in g.blocks ==> !g.blocks[c].kind.Cached?
    ensures var a := SECOND_AT + HEADER;
            p == a + HEADER && a in g'.blocks && g'.blocks[a].kind == Live(360) && g'.blocks[a].size == 376
    ensures SECOND_FREE in g'.blocks && g'.blocks[SECOND_FREE].kind.Free? && g'.blocks[SECOND_FREE].size == 104
    ensures forall c :: c in g'.blocks ==> !g'.blocks[c].kind.Cached?
  {
    MoreSizes();
    hide SegmentSize;
  }

  lemma Grows(h: Heap, p: int)
    requires h.Valid() && p == SECOND_AT + 2 * HEADER && h.IsLive(p - HEADER) && h.g.blocks[p - HEADER].size == 376
    requires SECOND_FREE in h.g.blocks && h.g.blocks[SECOND_FREE].kind.Free? && h.g.blocks[SECOND_FREE].size == 104
    requires forall c :: c in h.g.blocks ==> !h.g.blocks[c].kind.Cached?
    ensures !CacheHit(h.Now(), 480) && TakesAll(h.g.blocks, p - HEADER, 480)
  {
    hide TileInv, TagsOutside, CachesRep, CachesListed, SegsRep, Heap.IndexOk, IndexedBut, Coalesced, Heap.Accounts,
         Heap.Sound, TrueSize;
    MoreSizes();
    var i := BucketIndex(480);
    EmptyList(h.mem, h.base, h.g, i);
    NoneCached(h.g, i);
  }

  /** The second free block is the only one of the rest list. */
  lemma Joined(h: Heap, x: Index, fb: nat)
    requires h.Valid() && JoinedRest(x, fb, h.idx, h.freeBitmap, SECOND_FREE, 104) && x.rest == []
    ensures IndexInv(h.mem, h.base, h.idx) && h.idx.rest == [SECOND_FREE] && h.idx.smalls == x.smalls
    ensures h.freeBitmap == fb
    ensures SECOND_FREE in h.idx.size && h.idx.size[SECOND_FREE] == 104
  {
    hide BodyOk, IndexInv, BitsOk, CountOk, IndexedBut, Coalesced, Heap.Accounts, Heap.Sound;
  }

  lemma BitLost(m: Mem, x: Index, y: Index, z: Index, fb: nat, fb': nat)
    requires IndexInv(m, HEAP_AT, y) && ExactBits(fb, x) && y.smalls == x.smalls && x.smalls[9] == [FIRST_FREE]
    requires y.rest == [SECOND_FREE] && SECOND_FREE in y.size && y.size[SECOND_FREE] == 104
    requires TakenOff(m, HEAP_AT, y, fb, z, fb', SECOND_FREE)
    ensures |z.smalls| == NUM_BUCKETS && z.smalls[9] == [FIRST_FREE] && !Bit(fb', 9)
  {
    hide IndexInv, Bit, Shaped, ClearBit, Unlink;
    LostBitIff(m, HEAP_AT, y, SECOND_FREE, fb);
    assert y.loc[SECOND_FREE] == InRest by { assert SECOND_FREE in y.rest; }
    assert z.smalls == x.smalls;
    ClearBitBits(fb, 9, 9);
    forall j: nat ensures Bit(ClearBit(fb, 9), j) <==> j != 9 && Bit(fb, j) { ClearBitBits(fb, 9, j); }
  }
}
