/** Heap-wide consequences of carving, and the accounts of a heap. */
module HeapOps {
  import opened Words
  import opened Memory
  import opened Trie
  import opened Index
  import opened IndexOps
  import opened TrieIndex
  import opened Bitmaps
  import opened Tiling
  import opened HeapMemory

  /** Everything about the heap that is not the free-block index. */
  datatype Body = Body(segs: map<int, int>, blocks: Blocks, order: seq<int>, caches: Caches)

  ghost predicate BodyOk(m: Mem, h: int, g: Body)
  {
    BodyBut(m, h, g, 0, 0)
  }

  /** As above, except for the tags written by the blocks from `a` to `e`. */
  ghost predicate BodyBut(m: Mem, h: int, g: Body, a: int, e: int)
  {
    && TileInv(h, g.segs, g.blocks) && TagsOutside(m, g.blocks, a, e)
    && CachesListed(g.blocks, g.caches) && CachesRep(m, h, g.caches)
    && SegsRep(m, h, g.segs, g.order)
  }

  lemma BodyRun(m: Mem, h: int, g: Body, a: int, e: int)
    requires BodyOk(m, h, g)
    ensures BodyBut(m, h, g, a, e)
  {
    hide TileInv, CachesListed, CachesRep, SegsRep;
    TagsOutsideRun(m, g.blocks, a, e);
  }

  /** The free blocks except those in `out` are exactly the indexed ones. */
  ghost predicate IndexedBut(x: Index, b: Blocks, out: set<int>)
  {
    x.size == FreeOf(b) - out
  }

  lemma IndexedFree(x: Index, b: Blocks, out: set<int>)
    requires IndexedBut(x, b, out)
    ensures FreeIn(b, x.size)
    ensures forall a :: a in x.size <==> a in b && b[a].kind.Free? && a !in out
  {
  }

  /** An index operation on free blocks leaves the body as it is. */
  lemma BodyKept(m: Mem, m': Mem, h: int, g: Body, d: map<int, int>)
    requires BodyOk(m, h, g) && FreeIn(g.blocks, d) && IndexFrame(m, m', h, d)
    ensures BodyOk(m', h, g)
    ensures forall c :: c in g.blocks && !g.blocks[c].kind.Free? ==> SamePayload(m, m', g.blocks, c)
  {
    hide TileInv, TagsOutside, CachesRep, SegsRep, FreeIn, IndexFrame, SamePayload;
    TagsKept(h, g.segs, g.blocks, m, m', d, 0, 0);
    CachesKept(h, g.segs, g.blocks, m, m', d, g.caches);
    SegsKept(h, g.segs, g.blocks, m, m', d, g.order);
    forall c | c in g.blocks && !g.blocks[c].kind.Free? ensures SamePayload(m, m', g.blocks, c) {
      PayloadKept(h, g.segs, g.blocks, m, m', d, c);
    }
  }

  // ---------- writes that miss the index ----------

  /** Words the index depends on. */
  ghost predicate IndexWord(h: int, x: Index, w: int)
  {
    h + 664 <= w < h + 2216 || (exists c :: c in x.size && (w == c || c + 16 <= w < c + x.size[c]))
  }

  ghost predicate SameIndexWords(m: Mem, m': Mem, h: int, x: Index)
  {
    forall w :: IndexWord(h, x, w) ==> Rd(m', w) == Rd(m, w)
  }

  lemma NodeSame(m: Mem, m': Mem, h: int, x: Index, c: int)
    requires SameIndexWords(m, m', h, x) && c in x.size && x.size[c] >= MIN_BLOCK
    ensures SameLinks(m, m', c) && Tag(m', c) == Tag(m, c)
    ensures x.size[c] >= MAX_SMALL ==> SameNode(m, m', c) && SameChildren(m, m', c)
  {
    assert IndexWord(h, x, c) && IndexWord(h, x, c + 16) && IndexWord(h, x, c + 24);
    if x.size[c] >= MAX_SMALL {
      assert IndexWord(h, x, c + 32) && IndexWord(h, x, ChildSlot(c, 0)) && IndexWord(h, x, ChildSlot(c, 1));
    }
  }

  lemma SlotSame(m: Mem, m': Mem, h: int, x: Index, w: int)
    requires SameIndexWords(m, m', h, x) && h + 664 <= w < h + 2216
    ensures Rd(m', w) == Rd(m, w)
  {
    assert IndexWord(h, x, w);
  }

  lemma RingSame(m: Mem, m': Mem, h: int, x: Index, head: int, r: seq<int>)
    requires SameIndexWords(m, m', h, x) && Ring(m, [head] + r)
    requires h + 648 <= head <= h + 2184 && forall a :: a in r ==> a in x.size && x.size[a] >= MIN_BLOCK
    ensures Ring(m', [head] + r)
  {
    hide Ring, SameIndexWords;
    forall a | a in [head] + r ensures SameLinks(m, m', a) {
      if a == head { SlotSame(m, m', h, x, a + 16); SlotSame(m, m', h, x, a + 24); }
      else { assert a in r; NodeSame(m, m', h, x, a); }
    }
    RingFrame(m, m', [head] + r);
  }

  lemma IndexSame(m: Mem, m': Mem, h: int, x: Index)
    requires IndexInv(m, h, x) && SameIndexWords(m, m', h, x)
    ensures IndexInv(m', h, x)
  {
    hide Ring, Rep, Members, Shape, SameIndexWords;
    forall c | c in x.size ensures x.size[c] >= MIN_BLOCK { }
    forall i | 0 <= i < NUM_BUCKETS ensures Ring(m', [SmallHead(h, i)] + x.smalls[i]) {
      SmallMembers(m, h, x, i);
      RingSame(m, m', h, x, SmallHead(h, i), x.smalls[i]);
    }
    RestMembers(m, h, x);
    RingSame(m, m', h, x, RestHead(h), x.rest);
    forall i | 0 <= i < NUM_BUCKETS ensures Rep(m', LargeSlot(h, i), x.tries[i]) {
      TrieFacts(m, h, x, i);
      forall a | a in Members(x.tries[i]) ensures SameNode(m, m', a) && SameChildren(m, m', a) { NodeSame(m, m', h, x, a); }
      SlotSame(m, m', h, x, LargeSlot(h, i));
      RepFrame(m, m', LargeSlot(h, i), x.tries[i]);
    }
    forall a | a in x.size
      ensures Tag(m', a) == x.size[a] && (x.loc[a] == InRest && x.size[a] >= MAX_SMALL ==> Parent(m', a) == REST_MARK)
    {
      NodeSame(m, m', h, x, a);
    }
  }

  // ---------- carving the heap ----------

  /** The part of the heap that the writes of a carving may touch. */
  lemma CarveMisses(h: int, segs: map<int, int>, b: Blocks, m: Mem, a: int, e: int, s: int, t1: int, t2: int, c: int, w: int)
    requires TileInv(h, segs, b) && CanCarve(b, a, e, s) && c in b && !(a <= c < e)
    requires c <= w < c + b[c].size && !(w == c + 8 && c == e)
    ensures Rd(CarveWrites(m, a, e, s, t1, t2), w) == Rd(m, w)
  {
    hide TileInv, CarveWrites;
    CarveWord(m, a, e, s, t1, t2, w);
    Order(h, segs, b, c, a);
    Order(h, segs, b, e, c);
    Bounds(h, segs, b, e);
  }

  /** Nor do they touch the heap structure or a segment header. */
  lemma CarveMissesSlots(h: int, segs: map<int, int>, b: Blocks, m: Mem, a: int, e: int, s: int, t1: int, t2: int, w: int)
    requires TileInv(h, segs, b) && CanCarve(b, a, e, s)
    requires h <= w < h + STRUCT_SIZE || (exists t :: t in segs && t <= w < t + HEADER)
    ensures Rd(CarveWrites(m, a, e, s, t1, t2), w) == Rd(m, w)
  {
    hide TileInv, CarveWrites;
    CarveWord(m, a, e, s, t1, t2, w);
    Bounds(h, segs, b, a);
    Bounds(h, segs, b, e);
    if h <= w < h + STRUCT_SIZE {
      RunOutsideStruct(h, segs, b, a, e);
    } else {
      var t :| t in segs && t <= w < t + HEADER;
      RunOutsideHeader(h, segs, b, a, e, t);
    }
  }

  lemma RunOutsideStruct(h: int, segs: map<int, int>, b: Blocks, a: int, e: int)
    requires TileInv(h, segs, b) && a in b && e in b && a < e && b[a].seg == b[e].seg
    ensures e + b[e].size <= h || h + STRUCT_SIZE <= a
  {
    Bounds(h, segs, b, a);
    Bounds(h, segs, b, e);
    hide Within, NextLinked, PrevLinked, Ends, NoOverlap;
  }

  lemma RunOutsideHeader(h: int, segs: map<int, int>, b: Blocks, a: int, e: int, t: int)
    requires TileInv(h, segs, b) && a in b && e in b && a < e && b[a].seg == b[e].seg && t in segs
    ensures e + b[e].size <= t || t + HEADER <= a
  {
    Bounds(h, segs, b, a);
    Bounds(h, segs, b, e);
    hide Within, NextLinked, PrevLinked, Ends, NoOverlap;
    if b[a].seg != t { assert b[a].seg + segs[b[a].seg] <= t || t + segs[t] <= b[a].seg; }
  }

  /** Free blocks inside the run have been taken out of the index, cached ones do not occur. */
  ghost predicate RunReady(b: Blocks, x: Index, a: int, e: int)
  {
    forall c :: c in b && a <= c < e ==> c !in x.size && !b[c].kind.Cached?
  }

  lemma CarveIndex(h: int, segs: map<int, int>, b: Blocks, m: Mem, x: Index, a: int, e: int, s: int, t1: int, t2: int)
    requires TileInv(h, segs, b) && CanCarve(b, a, e, s) && IndexInv(m, h, x) && FreeIn(b, x.size)
    requires RunReady(b, x, a, e)
    ensures IndexInv(CarveWrites(m, a, e, s, t1, t2), h, x)
  {
    hide TileInv, CarveWrites, IndexInv;
    var m' := CarveWrites(m, a, e, s, t1, t2);
    forall w | IndexWord(h, x, w) ensures Rd(m', w) == Rd(m, w) {
      if h + 664 <= w < h + 2216 {
        CarveMissesSlots(h, segs, b, m, a, e, s, t1, t2, w);
      } else {
        var c :| c in x.size && (w == c || c + 16 <= w < c + x.size[c]);
        Bounds(h, segs, b, c);
        CarveMisses(h, segs, b, m, a, e, s, t1, t2, c, w);
      }
    }
    IndexSame(m, m', h, x);
  }

  lemma CarveCaches(h: int, g: Body, m: Mem, x: Index, a: int, e: int, s: int, k1: Kind, k2: Kind)
    requires BodyBut(m, h, g, a, e) && CanCarve(g.blocks, a, e, s) && RunReady(g.blocks, x, a, e) && !k1.Cached?
    requires !k2.Cached?
    ensures var m' := CarveWrites(m, a, e, s, TypeOf(k1), TypeOf(k2));
            CachesRep(m', h, g.caches) && CachesListed(Carve(g.blocks, a, e, s, k1, k2), g.caches)
  {
    hide TileInv, CarveWrites, TagsOutside, SegsRep, Chain, Carve;
    var b, b' := g.blocks, Carve(g.blocks, a, e, s, k1, k2);
    var m' := CarveWrites(m, a, e, s, TypeOf(k1), TypeOf(k2));
    forall i | 0 <= i < NUM_BUCKETS ensures Chain(m', FirstCached(m', h, g.caches, i), g.caches.lists[i]) {
      CarveMissesSlots(h, g.segs, b, m, a, e, s, TypeOf(k1), TypeOf(k2), CacheSlot(h, i));
      forall c | c in g.caches.lists[i] ensures PrevF(m', c) == PrevF(m, c) {
        Bounds(h, g.segs, b, c);
        CarveMisses(h, g.segs, b, m, a, e, s, TypeOf(k1), TypeOf(k2), c, c + 16);
      }
      ChainKept(m, m', FirstCached(m, h, g.caches, i), g.caches.lists[i]);
    }
    CarveSameCached(b, a, e, s, k1, k2, x, g.caches);
  }

  lemma CarveSameCached(b: Blocks, a: int, e: int, s: int, k1: Kind, k2: Kind, x: Index, caches: Caches)
    requires CanCarve(b, a, e, s) && RunReady(b, x, a, e) && !k1.Cached? && !k2.Cached? && CachesListed(b, caches)
    ensures CachesListed(Carve(b, a, e, s, k1, k2), caches)
  {
    hide Carve;
    var b' := Carve(b, a, e, s, k1, k2);
    forall c ensures (c in b && b[c].kind.Cached?) <==> (c in b' && b'[c].kind.Cached?)
             ensures c in b && b[c].kind.Cached? ==> c in b' && b'[c].size == b[c].size
    {
      CarveAt(b, a, e, s, k1, k2, c);
    }
  }

  lemma CarveSegs(h: int, g: Body, m: Mem, a: int, e: int, s: int, t1: int, t2: int)
    requires TileInv(h, g.segs, g.blocks) && SegsRep(m, h, g.segs, g.order) && CanCarve(g.blocks, a, e, s)
    ensures SegsRep(CarveWrites(m, a, e, s, t1, t2), h, g.segs, g.order)
  {
    hide TileInv, CarveWrites, SegsRep;
    var m' := CarveWrites(m, a, e, s, t1, t2);
    CarveMissesSlots(h, g.segs, g.blocks, m, a, e, s, t1, t2, SegmentsSlot(h));
    forall t | t in g.segs ensures Rd(m', t) == Rd(m, t) && Rd(m', t + 8) == Rd(m, t + 8) {
      CarveMissesSlots(h, g.segs, g.blocks, m, a, e, s, t1, t2, t);
      CarveMissesSlots(h, g.segs, g.blocks, m, a, e, s, t1, t2, t + 8);
    }
    SegsRepKept(m, m', h, g.segs, g.order);
  }

  /** Carving the run of a heap whose free blocks there are out of the index. */
  lemma CarveBody(h: int, g: Body, m: Mem, x: Index, a: int, e: int, s: int, k1: Kind, k2: Kind)
    requires BodyBut(m, h, g, a, e) && IndexInv(m, h, x) && FreeIn(g.blocks, x.size)
    requires CanCarve(g.blocks, a, e, s) && RunReady(g.blocks, x, a, e)
    requires !k1.Guard? && !k2.Guard? && !k1.Cached? && !k2.Cached?
    ensures var m' := CarveWrites(m, a, e, s, TypeOf(k1), TypeOf(k2));
            var g' := g.(blocks := Carve(g.blocks, a, e, s, k1, k2));
            BodyOk(m', h, g') && IndexInv(m', h, x)
    ensures forall c :: c in g.blocks && !(a <= c < e) ==>
              SamePayload(m, CarveWrites(m, a, e, s, TypeOf(k1), TypeOf(k2)), g.blocks, c)
  {
    hide TileInv, CarveWrites, Carve, TagsOutside, SegsRep, CachesRep, CachesListed, IndexInv, RunReady, FreeIn;
    CarveTiled(h, g.segs, g.blocks, a, e, s, k1, k2);
    CarveTags(h, g.segs, m, g.blocks, a, e, s, k1, k2);
    CarveIndex(h, g.segs, g.blocks, m, x, a, e, s, TypeOf(k1), TypeOf(k2));
    CarveCaches(h, g, m, x, a, e, s, k1, k2);
    CarveSegs(h, g, m, a, e, s, TypeOf(k1), TypeOf(k2));
    forall c | c in g.blocks && !(a <= c < e)
      ensures SamePayload(m, CarveWrites(m, a, e, s, TypeOf(k1), TypeOf(k2)), g.blocks, c)
    {
      CarvePayload(h, g, m, a, e, s, TypeOf(k1), TypeOf(k2), c);
    }
  }

  lemma CarvePayload(h: int, g: Body, m: Mem, a: int, e: int, s: int, t1: int, t2: int, c: int)
    requires TileInv(h, g.segs, g.blocks) && CanCarve(g.blocks, a, e, s) && c in g.blocks && !(a <= c < e)
    ensures SamePayload(m, CarveWrites(m, a, e, s, t1, t2), g.blocks, c)
  {
    hide TileInv, CarveWrites;
    forall w | c + HEADER <= w < c + g.blocks[c].size
      ensures Rd(CarveWrites(m, a, e, s, t1, t2), w) == Rd(m, w)
    {
      CarveMisses(h, g.segs, g.blocks, m, a, e, s, t1, t2, c, w);
    }
  }

  /** The free blocks that a carving creates. */
  ghost function NewFree(a: int, e: int, s: int, k1: Kind, k2: Kind): set<int>
  {
    (if k1.Free? then {a} else {}) + (if k2.Free? && s != e - a then {a + s} else {})
  }

  /** What becomes of the free blocks when a run is carved; those in `aside` lie elsewhere. */
  lemma CarveFree(b: Blocks, x: Index, a: int, e: int, s: int, k1: Kind, k2: Kind, out: set<int>, aside: set<int>)
    requires CanCarve(b, a, e, s) && IndexedBut(x, b, out + aside) && RunReady(b, x, a, e)
    requires (forall c :: c in out ==> a <= c < e) && (forall c :: c in aside ==> !(a <= c < e))
    ensures IndexedBut(x, Carve(b, a, e, s, k1, k2), NewFree(a, e, s, k1, k2) + aside)
    ensures forall c :: c in NewFree(a, e, s, k1, k2) ==> c !in x.size
  {
    hide Carve;
    var b' := Carve(b, a, e, s, k1, k2);
    var fresh' := NewFree(a, e, s, k1, k2) + aside;
    IndexedFree(x, b, out + aside);
    CarveAt(b, a, e, s, k1, k2, a);
    CarveAt(b, a, e, s, k1, k2, a + s);
    forall c ensures c in x.size <==> c in b' && b'[c].kind.Free? && c !in fresh'
             ensures c in x.size ==> c in b' && b'[c].size == x.size[c] {
      CarveAt(b, a, e, s, k1, k2, c);
    }
    assert x.size == FreeOf(b') - fresh';
  }

  // ---------- accounts ----------

  predicate InUse(k: Kind) { k.Live? || k.Cached? }

  ghost function UsedOf(b: Blocks): map<int, int> { map a | a in b && InUse(b[a].kind) :: b[a].size }
  ghost function CachedOf(b: Blocks): map<int, int> { map a | a in b && b[a].kind.Cached? :: b[a].size }
  ghost function LiveOf(b: Blocks): map<int, int> { map a | a in b && b[a].kind.Live? :: b[a].size }

}
