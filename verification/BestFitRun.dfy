/** A client run in which the large search misses the best fit (zend_alloc.c, `zend_mm_search_large_block`). */
module BestFitRun {
  import opened Words
  import opened Memory
  import opened Trie
  import opened TrieOps
  import opened Index
  import opened TrieIndex
  import opened IndexSteps
  import opened Search
  import opened LargeSearch
  import opened FreeSearch
  import opened Bitmaps
  import opened Tiling
  import opened HeapOps
  import opened HeapMemory
  import opened HeapFacts
  import opened Sums
  import opened HeapEffects
  import opened ZendHeap
  import opened LostBlock

  const BIG_UNIT: nat := 4096
  const A_AT: int := 65536
  const B_AT: int := 131072
  const C_AT: int := 196608
  const A_FREE: int := A_AT + HEADER + 2024
  const B_FREE: int := B_AT + HEADER + 2264
  const C_FREE: int := C_AT + HEADER + 2512

  /** Three allocations, each from a segment of its own, leave free blocks of 2040, 1800 and 1552 bytes
      behind them. A request that the smallest would meet is then given the middle one. */
  method Miss(m: Mem) returns (h: Heap, r: Outcome)
    ensures fresh(h) && h.Valid() && r == Ptr(B_FREE + HEADER)
    ensures C_FREE in h.g.blocks && h.g.blocks[C_FREE].kind.Free? && h.g.blocks[C_FREE].size == 1552 >= TrueSize(1040)
  {
    hide Heap.Valid, TrueSize, SegmentSize, RegionFree, Refused, FiledAs, FoundFit, NothingFits, Granted, Holding,
         NewSegmentFor, CutFound;
    BigUnit();
    BigSizes();
    h := new Heap(HEAP_AT, BIG_UNIT, m);
    StorageNow(h);
    EmptyAccounts();
    NoTries(h);
    FirstRegion();
    ghost var x := h.idx;
    OpenFor(h, 2008, 2024, A_AT);
    FirstFiled(x, h.idx);
    SecondRegion();
    x := h.idx;
    OpenFor(h, 2248, 2264, B_AT);
    SecondFiled(x, h.idx);
    ThirdRegion();
    x := h.idx;
    OpenFor(h, 2496, 2512, C_AT);
    ThirdFiled(x, h.idx);
    x := h.idx;
    ghost var fb, b := h.freeBitmap, h.g.blocks;
    FreeNow(h);
    ghost var near := h.realSize >= (h.limit - h.unit) % WORD;
    CanFind(x, fb, near);
    r := h.AllocInt(1040, 0);
    Missed(x, fb, near, r.address - HEADER);
    StillFree(b, h.g.blocks, r.address - HEADER);
  }

  lemma BigUnit()
    ensures AnyUnit(BIG_UNIT)
  {
    assert Pow2(12) == 16 * Pow2(8) && Pow2(8) == 16 * Pow2(4) && Pow2(4) == 16;
  }

  lemma BigSizes()
    ensures TrueSize(2008) == 2024 && TrueSize(2248) == 2264 && TrueSize(2496) == 2512 && TrueSize(1040) == 1056
  {
  }

  lemma FirstRegion()
    ensures RegionFree(HEAP_AT, map[], A_AT, BIG_UNIT)
  {
  }

  lemma SecondRegion()
    ensures RegionFree(HEAP_AT, map[A_AT := BIG_UNIT], B_AT, BIG_UNIT)
  {
  }

  lemma ThirdRegion()
    ensures RegionFree(HEAP_AT, map[A_AT := BIG_UNIT][B_AT := BIG_UNIT], C_AT, BIG_UNIT)
  {
  }

  /** One block of `t` bytes from a segment of one unit, with what is left of it filed. */
  method OpenFor(h: Heap, req: nat, t: nat, hint: int)
    requires h.Valid() && h.base == HEAP_AT && h.unit == BIG_UNIT && h.limit == HALF_WORD / 2
    requires 0 <= h.realSize <= 2 * BIG_UNIT
    requires TrueSize(req) == t && req + HEADER + 7 < WORD && MAX_SMALL <= t <= BIG_UNIT - 2 * HEADER - MIN_BLOCK
    requires RegionFree(HEAP_AT, h.storage, hint, BIG_UNIT) && forall a :: a in h.idx.size ==> h.idx.size[a] < t
    modifies h
    ensures h.Valid() && FiledAs(old(h.idx), h.idx, hint + HEADER + t, BIG_UNIT - 2 * HEADER - t)
    ensures h.storage == old(h.storage)[hint := BIG_UNIT] && h.realSize == old(h.realSize) + BIG_UNIT
    ensures h.limit == old(h.limit)
  {
    hide Heap.Valid, TrueSize, RegionFree, FiledAs, JoinedRest, Granted, Sum;
    OneUnit(t, h.realSize);
    StorageNow(h);
    RegionNew(h, hint, BIG_UNIT);
    SumAdd(h.storage, hint, BIG_UNIT);
    hide SegmentSize, Refused;
    var r := h.AllocInt(req, hint);
    StorageNow(h);
  }

  lemma OneUnit(t: nat, used: int)
    requires MIN_BLOCK <= t <= BIG_UNIT - 2 * HEADER && 0 <= used <= 2 * BIG_UNIT
    ensures SegmentSize(t, BIG_UNIT) == BIG_UNIT && !Oversize(t, BIG_UNIT) && !Refused(t, BIG_UNIT, used, HALF_WORD / 2)
  {
  }

  lemma RegionNew(h: Heap, hint: int, n: int)
    requires h.Valid() && RegionFree(h.base, h.storage, hint, n)
    ensures hint !in h.storage
  {
    hide TileInv, TagsOutside, CachesRep, CachesListed, SegsRep, Heap.IndexOk, IndexedBut, Coalesced, Heap.Sound,
         Heap.Accounts, RegionFree;
    RegionAdds(h.base, h.g.segs, h.g.blocks, hint, n);
  }

  // ---------- the index ----------

  /** Exactly the blocks of `sizes` are free, all of them in the trie `t` of the sizes from 1024 on. */
  ghost predicate Holding(x: Index, sizes: map<int, int>, t: Trie)
  {
    && |x.smalls| == NUM_BUCKETS && |x.tries| == NUM_BUCKETS && x.size == sizes && x.tries[10] == t
    && forall a :: a in x.size ==> a in x.loc && x.loc[a] == InTrie(10)
  }

  lemma NoTries(h: Heap)
    requires h.Valid() && h.g.blocks == map[]
    ensures h.idx.size == map[] && Holding(h.idx, map[], Nil)
  {
    hide BodyOk, BitsOk, CountOk, Coalesced, Heap.Accounts, Heap.Sound, Linked, Marked, Spread, SmallsListed,
         RestListed;
    var x := h.idx;
    assert x.size == map[];
    var t := x.tries[10];
    assert Shape(t, 10, 1);
    TrieFacts(h.mem, h.base, x, 10);
    if t.Node? { var a := RootMember(t); assert false; }
  }

  lemma RootMember(t: Trie) returns (a: int)
    requires t.Node? && |t.ring| > 0
    ensures a in Members(t)
  {
    a := t.ring[0];
    assert a in Elems(t.ring);
  }

  lemma TenBits(s: nat)
    requires s == 2040 || s == 1800 || s == 1552 || s == 1056
    ensures Log2(s) == 10 && Shr(s, 10) == 1
  {
    assert Shr(2040, 10) == 1 && Shr(1800, 10) == 1 && Shr(1552, 10) == 1 && Shr(1056, 10) == 1;
    Log2Leading(s, 10);
  }

  lemma FiledLarge(x: Index, x': Index, b: int, s: nat, sizes: map<int, int>, t: Trie)
    requires Holding(x, sizes, t) && FiledAs(x, x', b, s) && (s == 2040 || s == 1800 || s == 1552)
    ensures Shape(t, 10, Shr(s, 10)) && Holding(x', sizes[b := s], Insert(t, b, s, 10))
  {
    TenBits(s);
    hide Shr, Log2, Shape, Insert;
  }

  lemma FirstFiled(x: Index, x': Index)
    requires Holding(x, map[], Nil) && FiledAs(x, x', A_FREE, 2040)
    ensures x'.size == map[A_FREE := 2040] && Holding(x', x'.size, Node([A_FREE], 2040, Nil, Nil))
  {
    FiledLarge(x, x', A_FREE, 2040, map[], Nil);
  }

  lemma SecondFiled(x: Index, x': Index)
    requires Holding(x, map[A_FREE := 2040], Node([A_FREE], 2040, Nil, Nil)) && FiledAs(x, x', B_FREE, 1800)
    ensures x'.size == map[A_FREE := 2040][B_FREE := 1800]
    ensures Holding(x', x'.size, Node([A_FREE], 2040, Nil, Node([B_FREE], 1800, Nil, Nil)))
  {
    FiledLarge(x, x', B_FREE, 1800, map[A_FREE := 2040], Node([A_FREE], 2040, Nil, Nil));
    assert Shr(1800, 9) == 3;
  }

  ghost function Found(): Trie { Node([A_FREE], 2040, Nil, Node([B_FREE], 1800, Node([C_FREE], 1552, Nil, Nil), Nil)) }

  const FREE: map<int, int> := map[A_FREE := 2040][B_FREE := 1800][C_FREE := 1552]

  lemma ThirdFiled(x: Index, x': Index)
    requires Holding(x, map[A_FREE := 2040][B_FREE := 1800], Node([A_FREE], 2040, Nil, Node([B_FREE], 1800, Nil, Nil)))
    requires FiledAs(x, x', C_FREE, 1552)
    ensures Holding(x', FREE, Found())
  {
    FiledLarge(x, x', C_FREE, 1552, map[A_FREE := 2040][B_FREE := 1800], Node([A_FREE], 2040, Nil, Node([B_FREE], 1800, Nil, Nil)));
    assert Shr(1552, 9) == 3 && Shr(1552, 8) == 6;
    var r := Node([B_FREE], 1800, Nil, Nil);
    assert Insert(r, C_FREE, 1552, 9) == r.(left := Node([C_FREE], 1552, Nil, Nil));
  }

  lemma CanFind(x: Index, fb: nat, nearLimit: bool)
    requires Holding(x, FREE, Found())
    ensures !NothingFits(x, fb, nearLimit, 1056)
  {
    assert C_FREE in x.size && x.loc[C_FREE] == InTrie(10);
  }

  lemma Settled(x: Index, r: int)
    requires Holding(x, FREE, Found()) && SettlesOn(x, 1056, r)
    ensures r == 1800
  {
    TenBits(1056);
    assert Shr(1056, 9) == 2;
    var t := Found();
    assert DescentMin(t.right) == 1800;
    assert PathBest(t, 1056, 10, Nil) == Min(2040, PathBest(t.left, 1056, 9, t.right)) == 1800;
    assert !AllBelow(t, 1056);
  }

  lemma Missed(x: Index, fb: nat, near: bool, b: int)
    requires Holding(x, FREE, Found()) && FoundFit(x, fb, near, 1056, b)
    ensures b == B_FREE
  {
    hide FindsLeast, SettlesOn, LeastOfFits;
    Settled(x, x.size[b]);
  }

  lemma FreeNow(h: Heap)
    requires h.Valid() && Holding(h.idx, FREE, Found())
    ensures FreeOf(h.g.blocks) == FREE
  {
    hide BodyOk, Heap.IndexOk, Coalesced, Heap.Accounts, Heap.Sound, FreeOf;
    assert h.idx.size == FreeOf(h.g.blocks) - {};
  }

  /** The smallest free block is not touched by the cut in another one. */
  lemma StillFree(b: Blocks, b': Blocks, a: int)
    requires FreeOf(b) == FREE && a == B_FREE && CutFound(b, b', a, 1056, 1040)
    ensures C_FREE in b' && b'[C_FREE].kind.Free? && b'[C_FREE].size == 1552
  {
    assert C_FREE in FreeOf(b) && a in FreeOf(b);
    assert b[C_FREE].kind.Free? && b[C_FREE].size == 1552 && b[a].size == FREE[a];
  }
}
