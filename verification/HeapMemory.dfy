/** How the tiling, the block cache and the segment list lie in memory, and what leaves them alone. */
module HeapMemory {
  import opened Words
  import opened Memory
  import opened Index
  import opened Bitmaps
  import opened Tiling

  // ---------- boundary tags ----------

  function TypeOf(k: Kind): int
  {
    match k
    case Free => 0
    case Live(_) => 1
    case Cached => 1
    case Guard => 3
  }

  function TagOf(x: Blk): int { x.size + TypeOf(x.kind) }

  const FIRST_MARK: int := 3

  ghost predicate TagRight(m: Mem, b: Blocks, a: int)
    requires a in b
  {
    Tag(m, a) == TagOf(b[a])
  }

  ghost predicate PrevRight(m: Mem, b: Blocks, a: int)
    requires a in b
  {
    if b[a].prev == 0 then PrevTag(m, a) == FIRST_MARK
    else a - b[a].prev in b && PrevTag(m, a) == TagOf(b[a - b[a].prev])
  }

  /** All tags are right except those written by blocks of the run from `a` to `e`. */
  ghost predicate TagsOutside(m: Mem, b: Blocks, a: int, e: int)
  {
    && (forall c {:trigger TagRight(m, b, c)} :: c in b && !(a <= c < e) ==> TagRight(m, b, c))
    && (forall c {:trigger PrevRight(m, b, c)} :: c in b && !(a < c <= e) ==> PrevRight(m, b, c))
  }

  /** Size tag of every block, and the copy kept by its successor. */
  ghost predicate TagsRep(m: Mem, b: Blocks)
  {
    TagsOutside(m, b, 0, 0)
  }

  lemma TagsAt(m: Mem, b: Blocks, c: int)
    requires TagsRep(m, b) && c in b
    ensures TagRight(m, b, c) && PrevRight(m, b, c)
  {
  }

  lemma TagsOutsideRun(m: Mem, b: Blocks, a: int, e: int)
    requires TagsRep(m, b)
    ensures TagsOutside(m, b, a, e)
  {
    forall c | c in b ensures TagRight(m, b, c) && PrevRight(m, b, c) { TagsAt(m, b, c); }
  }

  lemma TagParts(x: Blk)
    requires x.size % 8 == 0
    ensures TagOf(x) - TagOf(x) % 4 == x.size && (TagOf(x) % 2 == 0 <==> x.kind.Free?)
    ensures (TagOf(x) % 4 == 3 <==> x.kind.Guard?)
    ensures x.kind.Free? ==> TagOf(x) == x.size
    ensures x.size >= HEADER ==> TagOf(x) != FIRST_MARK
  {
    var k := x.size / 8;
    assert x.size == 8 * k;
  }

  /** What the macros read from the tag of a block. */
  lemma TagReads(h: int, segs: map<int, int>, m: Mem, b: Blocks, c: int)
    requires TileInv(h, segs, b) && TagsRep(m, b) && c in b
    ensures Tag(m, c) - Tag(m, c) % 4 == b[c].size
    ensures Tag(m, c) % 2 == 0 <==> b[c].kind.Free?
    ensures Tag(m, c) % 4 == 3 <==> b[c].kind.Guard?
    ensures b[c].kind.Free? ==> Tag(m, c) == b[c].size
    ensures PrevTag(m, c) == FIRST_MARK <==> b[c].prev == 0
    ensures b[c].prev != 0 ==> c - b[c].prev in b && PrevTag(m, c) - PrevTag(m, c) % 4 == b[c].prev
    ensures PrevTag(m, c) % 2 == 0 <==> b[c].prev != 0 && c - b[c].prev in b && b[c - b[c].prev].kind.Free?
  {
    hide TileInv, TagsRep, TagOf;
    TagsAt(m, b, c);
    Bounds(h, segs, b, c);
    Links(h, segs, b, c);
    TagParts(b[c]);
    if b[c].prev != 0 {
      Bounds(h, segs, b, c - b[c].prev);
      TagParts(b[c - b[c].prev]);
    }
  }

  /** ZEND_MM_BLOCK. */
  function SetBlock(m: Mem, a: int, typ: int, size: int): Mem
  {
    Wr(Wr(m, a, size + typ), a + size + 8, size + typ)
  }

  /** The tag writes that go with a carving. */
  function CarveWrites(m: Mem, a: int, e: int, s: int, t1: int, t2: int): Mem
  {
    if s == e - a then SetBlock(m, a, t1, s)
    else SetBlock(SetBlock(m, a, t1, s), a + s, t2, e - a - s)
  }

  lemma CarveWord(m: Mem, a: int, e: int, s: int, t1: int, t2: int, w: int)
    requires s >= MIN_BLOCK && (s == e - a || s + MIN_BLOCK <= e - a)
    ensures var m' := CarveWrites(m, a, e, s, t1, t2);
            && Rd(m', a) == s + t1
            && Rd(m', a + s + 8) == s + t1
            && (s != e - a ==> Rd(m', a + s) == e - a - s + t2 && Rd(m', e + 8) == e - a - s + t2)
            && (w != a && w != a + s + 8 && (s != e - a ==> w != a + s && w != e + 8) ==> Rd(m', w) == Rd(m, w))
  {
  }

  lemma CarveTags(h: int, segs: map<int, int>, m: Mem, b: Blocks, a: int, e: int, s: int, k1: Kind, k2: Kind)
    requires TileInv(h, segs, b) && CanCarve(b, a, e, s) && TagsOutside(m, b, a, e)
    ensures TagsRep(CarveWrites(m, a, e, s, TypeOf(k1), TypeOf(k2)), Carve(b, a, e, s, k1, k2))
  {
    hide TileInv, Carve, CarveWrites;
    var b', m' := Carve(b, a, e, s, k1, k2), CarveWrites(m, a, e, s, TypeOf(k1), TypeOf(k2));
    CarveAt(b, a, e, s, k1, k2, a);
    CarveAt(b, a, e, s, k1, k2, a + s);
    CarveAt(b, a, e, s, k1, k2, e);
    forall c | c in b' ensures TagRight(m', b', c) {
      CarveAt(b, a, e, s, k1, k2, c);
      CarveWord(m, a, e, s, TypeOf(k1), TypeOf(k2), c);
      if c in b && !(a <= c < e) {
        TagOrder(h, segs, b, a, e, c);
        assert TagRight(m, b, c);
      }
    }
    forall c | c in b' ensures PrevRight(m', b', c) {
      CarveAt(b, a, e, s, k1, k2, c);
      CarveWord(m, a, e, s, TypeOf(k1), TypeOf(k2), c + 8);
      if c in b && !(a < c <= e) {
        TagOrder(h, segs, b, a, e, c);
        assert PrevRight(m, b, c);
        if b[c].prev != 0 {
          CarveAt(b, a, e, s, k1, k2, c - b[c].prev);
          PredOutside(h, segs, b, a, e, c);
        }
      }
    }
  }

  lemma TagOrder(h: int, segs: map<int, int>, b: Blocks, a: int, e: int, c: int)
    requires TileInv(h, segs, b) && a in b && e in b && a < e && c in b
    ensures c < a ==> c + HEADER <= a
    ensures c > e ==> e + HEADER <= c
  {
    hide TileInv;
    Order(h, segs, b, c, a);
    Order(h, segs, b, e, c);
    Bounds(h, segs, b, c);
    Bounds(h, segs, b, e);
  }

  lemma PredOutside(h: int, segs: map<int, int>, b: Blocks, a: int, e: int, c: int)
    requires TileInv(h, segs, b) && a in b && e in b && a < e && c in b && !(a < c <= e) && b[c].prev != 0
    ensures c - b[c].prev in b && !(a <= c - b[c].prev < e)
  {
    hide TileInv;
    Links(h, segs, b, c);
    var p := c - b[c].prev;
    Links(h, segs, b, p);
    Order(h, segs, b, p, e);
    Order(h, segs, b, p, a);
  }

  // ---------- what an index operation leaves alone ----------

  ghost predicate FreeIn(b: Blocks, d: map<int, int>)
  {
    forall q :: q in d ==> q in b && b[q].kind.Free? && d[q] == b[q].size
  }

  /** A word of the heap that no index operation on the free blocks `d` may change. */
  lemma FixedWord(h: int, segs: map<int, int>, b: Blocks, m: Mem, m': Mem, d: map<int, int>, c: int, w: int)
    requires TileInv(h, segs, b) && FreeIn(b, d) && IndexFrame(m, m', h, d) && c in b
    requires c <= w < c + b[c].size && (b[c].kind.Free? ==> w < c + HEADER)
    ensures Rd(m', w) == Rd(m, w)
  {
    hide TileInv;
    Bounds(h, segs, b, c);
    forall q | q in d ensures !(q + 16 <= w < q + d[q]) {
      Order(h, segs, b, q, c);
      Order(h, segs, b, c, q);
    }
    assert !Interior(d, w);
    OutsideStruct(h, segs, b, c);
  }

  lemma OutsideStruct(h: int, segs: map<int, int>, b: Blocks, c: int)
    requires TileInv(h, segs, b) && c in b
    ensures c + b[c].size <= h || h + STRUCT_SIZE <= c
  {
    Bounds(h, segs, b, c);
    hide Within, NextLinked, PrevLinked, Ends, NoOverlap;
  }

  /** A word of the heap structure, or of a segment header, outside the lists. */
  lemma FixedSlot(h: int, segs: map<int, int>, b: Blocks, m: Mem, m': Mem, d: map<int, int>, w: int)
    requires TileInv(h, segs, b) && FreeIn(b, d) && IndexFrame(m, m', h, d)
    requires h <= w < h + 664 || (exists s :: s in segs && s <= w < s + HEADER)
    ensures Rd(m', w) == Rd(m, w)
  {
    forall q | q in d ensures !(q + 16 <= w < q + d[q]) {
      hide TileInv;
      OutsideStruct(h, segs, b, q);
      if !(h <= w < h + 664) {
        var s :| s in segs && s <= w < s + HEADER;
        HeaderOutside(h, segs, b, q, s);
      }
    }
    assert !Interior(d, w);
    if !(h <= w < h + 664) {
      var s :| s in segs && s <= w < s + HEADER;
      hide Within, NextLinked, PrevLinked, Ends, NoOverlap;
      assert s + segs[s] <= h || h + STRUCT_SIZE <= s;
    }
  }

  lemma HeaderOutside(h: int, segs: map<int, int>, b: Blocks, q: int, s: int)
    requires TileInv(h, segs, b) && q in b && s in segs
    ensures q + b[q].size <= s || s + HEADER <= q
  {
    Bounds(h, segs, b, q);
    hide Within, NextLinked, PrevLinked, Ends, NoOverlap;
    if b[q].seg != s { assert b[q].seg + segs[b[q].seg] <= s || s + segs[s] <= b[q].seg; }
  }

  lemma TagsKept(h: int, segs: map<int, int>, b: Blocks, m: Mem, m': Mem, d: map<int, int>, a: int, e: int)
    requires TileInv(h, segs, b) && FreeIn(b, d) && IndexFrame(m, m', h, d) && TagsOutside(m, b, a, e)
    ensures TagsOutside(m', b, a, e)
  {
    hide TileInv, IndexFrame, FreeIn;
    forall c | c in b && !(a <= c < e) ensures TagRight(m', b, c) {
      Bounds(h, segs, b, c);
      assert TagRight(m, b, c);
      FixedWord(h, segs, b, m, m', d, c, c);
    }
    forall c | c in b && !(a < c <= e) ensures PrevRight(m', b, c) {
      Bounds(h, segs, b, c);
      assert PrevRight(m, b, c);
      FixedWord(h, segs, b, m, m', d, c, c + 8);
    }
  }

  // ---------- the cache of small blocks ----------

  /** A singly linked chain through the `prev_free_block` words. */
  ghost predicate Chain(m: Mem, p: int, xs: seq<int>)
    decreases xs
  {
    if xs == [] then p == 0 else p == xs[0] && p != 0 && Chain(m, PrevF(m, p), xs[1..])
  }

  lemma {:induction false} ChainKept(m: Mem, m': Mem, p: int, xs: seq<int>)
    requires Chain(m, p, xs) && forall x :: x in xs ==> PrevF(m', x) == PrevF(m, x)
    ensures Chain(m', p, xs)
    decreases xs
  {
    if xs != [] {
      assert xs[0] in xs;
      ChainKept(m, m', PrevF(m, p), xs[1..]);
    }
  }

  /** The cache lists. While a flush works through list `loose`, that list starts at `head`, a local
      variable of the flush, and its slot in the heap structure is stale; otherwise `loose` is -1. */
  datatype Caches = Caches(lists: seq<seq<int>>, loose: int, head: int)

  ghost predicate CachesListed(b: Blocks, caches: Caches)
  {
    && |caches.lists| == NUM_BUCKETS
    && (forall i :: 0 <= i < NUM_BUCKETS ==> Memory.Distinct(caches.lists[i]))
    && (forall i, a :: 0 <= i < NUM_BUCKETS ==>
          (a in caches.lists[i] <==> a in b && b[a].kind.Cached? && b[a].size == MIN_BLOCK + 8 * i))
    && (forall a :: a in b && b[a].kind.Cached? ==> b[a].size < MAX_SMALL)
  }

  function FirstCached(m: Mem, h: int, caches: Caches, i: int): int
  {
    if i == caches.loose then caches.head else Rd(m, CacheSlot(h, i))
  }

  ghost predicate CachesRep(m: Mem, h: int, caches: Caches)
  {
    |caches.lists| == NUM_BUCKETS && forall i :: 0 <= i < NUM_BUCKETS ==> Chain(m, FirstCached(m, h, caches, i), caches.lists[i])
  }

  lemma CachesKept(h: int, segs: map<int, int>, b: Blocks, m: Mem, m': Mem, d: map<int, int>, caches: Caches)
    requires TileInv(h, segs, b) && FreeIn(b, d) && IndexFrame(m, m', h, d)
    requires CachesRep(m, h, caches)
    requires forall i, a :: 0 <= i < NUM_BUCKETS && a in caches.lists[i] ==> a in b && b[a].kind.Cached?
    ensures CachesRep(m', h, caches)
  {
    hide TileInv, IndexFrame, FreeIn, Chain;
    forall i | 0 <= i < NUM_BUCKETS ensures Chain(m', FirstCached(m', h, caches, i), caches.lists[i]) {
      FixedSlot(h, segs, b, m, m', d, CacheSlot(h, i));
      forall x | x in caches.lists[i] ensures PrevF(m', x) == PrevF(m, x) {
        Bounds(h, segs, b, x);
        FixedWord(h, segs, b, m, m', d, x, x + 16);
      }
      ChainKept(m, m', FirstCached(m, h, caches, i), caches.lists[i]);
    }
  }

  // ---------- the segment list ----------

  /** The slot that points at segment number `k` of the list: the list head, or the
      `next_segment` word of the one in front. */
  function SlotAt(h: int, order: seq<int>, k: int): int
    requires 0 <= k <= |order|
  {
    if k == 0 then SegmentsSlot(h) else order[k - 1] + 8
  }

  function NextAt(order: seq<int>, k: int): int { if 0 <= k < |order| then order[k] else 0 }

  ghost predicate SegLinked(m: Mem, h: int, order: seq<int>)
  {
    forall k {:trigger SlotAt(h, order, k)} :: 0 <= k <= |order| ==> Rd(m, SlotAt(h, order, k)) == NextAt(order, k)
  }

  /** The list through `next_segment` holds exactly the segments, each with its size. */
  ghost predicate SegsRep(m: Mem, h: int, segs: map<int, int>, order: seq<int>)
  {
    && SegLinked(m, h, order) && Memory.Distinct(order)
    && (forall s :: s in order <==> s in segs)
    && (forall s :: s in segs ==> Rd(m, s) == segs[s])
  }

  lemma SegsRepKept(m: Mem, m': Mem, h: int, segs: map<int, int>, order: seq<int>)
    requires SegsRep(m, h, segs, order) && Rd(m', SegmentsSlot(h)) == Rd(m, SegmentsSlot(h))
    requires forall s :: s in segs ==> Rd(m', s) == Rd(m, s) && Rd(m', s + 8) == Rd(m, s + 8)
    ensures SegsRep(m', h, segs, order)
  {
    forall k | 0 <= k <= |order| ensures Rd(m', SlotAt(h, order, k)) == NextAt(order, k) {
      if k > 0 { assert order[k - 1] in order; }
      assert Rd(m, SlotAt(h, order, k)) == NextAt(order, k);
    }
  }

  lemma SegsKept(h: int, segs: map<int, int>, b: Blocks, m: Mem, m': Mem, d: map<int, int>, order: seq<int>)
    requires TileInv(h, segs, b) && FreeIn(b, d) && IndexFrame(m, m', h, d) && SegsRep(m, h, segs, order)
    ensures SegsRep(m', h, segs, order)
  {
    hide TileInv, IndexFrame, FreeIn, SegsRep;
    FixedSlot(h, segs, b, m, m', d, SegmentsSlot(h));
    forall s | s in segs ensures Rd(m', s) == Rd(m, s) && Rd(m', s + 8) == Rd(m, s + 8) {
      FixedSlot(h, segs, b, m, m', d, s);
      FixedSlot(h, segs, b, m, m', d, s + 8);
    }
    SegsRepKept(m, m', h, segs, order);
  }

  // ---------- payloads ----------

  /** The payload words of block `c` are the same in both memories. */
  ghost predicate SamePayload(m: Mem, m': Mem, b: Blocks, c: int)
    requires c in b
  {
    forall w :: c + HEADER <= w < c + b[c].size ==> Rd(m', w) == Rd(m, w)
  }

  lemma PayloadKept(h: int, segs: map<int, int>, b: Blocks, m: Mem, m': Mem, d: map<int, int>, c: int)
    requires TileInv(h, segs, b) && FreeIn(b, d) && IndexFrame(m, m', h, d) && c in b && !b[c].kind.Free?
    ensures SamePayload(m, m', b, c)
  {
    hide TileInv, IndexFrame, FreeIn;
    forall w | c + HEADER <= w < c + b[c].size ensures Rd(m', w) == Rd(m, w) {
      FixedWord(h, segs, b, m, m', d, c, w);
    }
  }
}
