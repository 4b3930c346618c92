/** What a valid heap guarantees to its clients. Every operation of `Heap` keeps validity, so these
    hold in every reachable state. */
module HeapTheorems {
  import opened Words
  import opened Memory
  import opened Trie
  import opened Index
  import opened Bitmaps
  import opened Tiling
  import opened HeapMemory
  import opened HeapOps
  import opened LargeSearch
  import opened HeapFacts
  import opened ZendHeap

  /** Live payloads are aligned, hold what was asked for, lie inside a segment between its header and
      its guard, miss the heap structure, and never overlap. */
  lemma LivePayloads(h: Heap, a: int, c: int)
    requires h.Valid() && h.IsLive(a) && h.IsLive(c)
    ensures var p, n := a + HEADER, h.g.blocks[a].kind.req;
            && p % 8 == 0 && 0 <= n <= h.g.blocks[a].size - HEADER
            && (a != c ==> p + n <= c + HEADER || c + HEADER + h.g.blocks[c].kind.req <= p)
            && (p + n <= h.base || h.base + STRUCT_SIZE <= p)
            && (var s := h.g.blocks[a].seg; s in h.g.segs && s + 2 * HEADER <= p && p + n <= s + h.g.segs[s] - HEADER)
  {
    hide TileInv, TagsOutside, CachesRep, CachesListed, SegsRep, Heap.IndexOk, IndexedBut, Coalesced, Heap.Accounts,
         GoodUnit;
    var b := h.g.blocks;
    Bounds(h.base, h.g.segs, b, a);
    PayloadAligned(h.base, h.g.segs, b, a);
    Bounds(h.base, h.g.segs, b, c);
    if a != c { LiveApart(h.base, h.g.segs, b, a, c); }
    OutsideStruct(h.base, h.g.segs, b, a);
  }

  /** No segment is without a block in use: a segment whose last one goes is returned. */
  lemma SegmentKeepsUser(h: Heap, s: int)
    requires h.Valid() && s in h.g.segs
    ensures exists a :: a in h.g.blocks && h.g.blocks[a].seg == s && InUse(h.g.blocks[a].kind)
  {
    hide TileInv, TagsOutside, CachesRep, CachesListed, SegsRep, Heap.IndexOk, IndexedBut, Coalesced, Heap.Accounts,
         GoodUnit, Roomy;
    var b, a := h.g.blocks, s + HEADER;
    SegmentEnds(h.base, h.g.segs, b, s);
    Bounds(h.base, h.g.segs, b, a);
    Links(h.base, h.g.segs, b, a);
    if b[a].kind.Free? {
      ApartAt(b, a);
      assert InUse(b[a + b[a].size].kind);
    }
  }

  /** Free neighbours are always merged. */
  lemma NoFreeNeighbours(h: Heap, a: int)
    requires h.Valid() && a in h.g.blocks && !h.g.blocks[a].kind.Guard?
    ensures var n := a + h.g.blocks[a].size;
            && n in h.g.blocks && !(h.g.blocks[a].kind.Free? && h.g.blocks[n].kind.Free?)
            && Tag(h.mem, a) == PrevTag(h.mem, n)
  {
    hide TileInv, TagsOutside, CachesRep, CachesListed, SegsRep, Heap.IndexOk, IndexedBut, Coalesced, Heap.Accounts,
         GoodUnit, Roomy;
    Links(h.base, h.g.segs, h.g.blocks, a);
    ApartAt(h.g.blocks, a);
    TagsAt(h.mem, h.g.blocks, a);
    TagsAt(h.mem, h.g.blocks, a + h.g.blocks[a].size);
    Links(h.base, h.g.segs, h.g.blocks, a + h.g.blocks[a].size);
  }

  // ---------- the index as a partition of the free blocks ----------

  /** Block `a` is on the list named by `l`. */
  ghost predicate OnList(x: Index, l: Loc, a: int)
  {
    match l
    case InSmall(i) => 0 <= i < |x.smalls| && a in x.smalls[i]
    case InRest => a in x.rest
    case InTrie(i) => 0 <= i < |x.tries| && a in Members(x.tries[i])
  }

  /** The list a free block of `s` bytes may be on, apart from the rest list. */
  ghost predicate RightList(l: Loc, s: int)
  {
    match l
    case InSmall(i) => s == MIN_BLOCK + 8 * i
    case InRest => true
    case InTrie(i) => MAX_SMALL <= s && 0 <= i && Shr(s, i) == 1
  }

  /** A block is on some list exactly if it is free; then it is on one list only, the right one. */
  lemma IndexPartition(h: Heap, a: int)
    requires h.Valid()
    ensures (a in h.g.blocks && h.g.blocks[a].kind.Free?) <==> exists l :: OnList(h.idx, l, a)
    ensures forall l, k :: OnList(h.idx, l, a) && OnList(h.idx, k, a) ==> l == k
    ensures forall l :: OnList(h.idx, l, a) ==> a in h.g.blocks && RightList(l, h.g.blocks[a].size)
  {
    hide BodyOk, Coalesced, Heap.Accounts, Heap.Sound, BitsOk, CountOk, IndexInv, IndexedBut, OnList, RightList;
    IndexedFree(h.idx, h.g.blocks, {});
    forall l ensures OnList(h.idx, l, a) <==> a in h.idx.size && a in h.idx.loc && h.idx.loc[a] == l {
      ListOf(h.mem, h.base, h.idx, l, a);
    }
    if a in h.idx.size {
      Homed(h.mem, h.base, h.idx, a);
      assert OnList(h.idx, h.idx.loc[a], a);
    }
  }

  lemma ListOf(m: Mem, h: int, x: Index, l: Loc, a: int)
    requires IndexInv(m, h, x)
    ensures OnList(x, l, a) <==> a in x.size && a in x.loc && x.loc[a] == l
  {
    hide Spread, Linked, Marked, Shaped, Members;
  }

  lemma Homed(m: Mem, h: int, x: Index, a: int)
    requires IndexInv(m, h, x) && a in x.size
    ensures a in x.loc && RightList(x.loc[a], x.size[a])
  {
    hide Spread, Linked, Marked, Shaped, Members, Shr, SmallsListed, TriesListed, RestListed;
    if x.loc[a].InTrie? { TrieBucket(m, h, x, a); FiledIn(m, h, x, a); }
  }

  // ---------- walking a segment by its tags ----------

  /** The blocks in order, as a walk from tag to tag finds them. */
  ghost predicate Contiguous(b: Blocks, w: seq<int>)
  {
    forall k :: 0 <= k < |w| ==> w[k] in b && (k > 0 ==> w[k - 1] in b && w[k] == w[k - 1] + b[w[k - 1]].size)
  }

  /** Walking a segment from its first block by the size tags meets every one of its blocks, in
      address order and without gap, and ends at the guard in its last bytes. */
  method WalkSegment(h: Heap, s: int) returns (w: seq<int>)
    requires h.Valid() && s in h.g.segs
    ensures Contiguous(h.g.blocks, w) && |w| > 0 && w[0] == s + HEADER
    ensures PrevTag(h.mem, w[0]) == FIRST_MARK
    ensures var z := w[|w| - 1]; z + h.g.blocks[z].size == s + h.g.segs[s] - HEADER
    ensures Tag(h.mem, s + h.g.segs[s] - HEADER) == HEADER + 3
    ensures forall a :: a in h.g.blocks && h.g.blocks[a].seg == s ==> a in w || a == s + h.g.segs[s] - HEADER
  {
    hide TileInv, TagsOutside, CachesRep, CachesListed, SegsRep, Heap.IndexOk, IndexedBut, Coalesced, Heap.Accounts,
         GoodUnit, Roomy;
    ghost var b, segs, e := h.g.blocks, h.g.segs, s + h.g.segs[s] - HEADER;
    var p := s + HEADER;
    WalkStart(h.base, segs, h.mem, b, s);
    w := [];
    while Tag(h.mem, p) % 4 != 3
      invariant p in b && b[p].seg == s && s + HEADER <= p <= e && (p == e <==> Tag(h.mem, p) % 4 == 3)
      invariant Contiguous(b, w) && (w == [] ==> p == s + HEADER)
      invariant w != [] ==> w[0] == s + HEADER && w[|w| - 1] in b && p == w[|w| - 1] + b[w[|w| - 1]].size
      invariant forall a :: a in b && b[a].seg == s && s + HEADER <= a < p ==> a in w
      decreases e - p
    {
      WalkStep(h.base, segs, h.mem, b, p);
      w := w + [p];
      p := p + (Tag(h.mem, p) - Tag(h.mem, p) % 4);
    }
    forall a | a in b && b[a].seg == s ensures a in w || a == e { Bounds(h.base, segs, b, a); }
  }

  lemma WalkStart(h: int, segs: map<int, int>, m: Mem, b: Blocks, s: int)
    requires TileInv(h, segs, b) && TagsRep(m, b) && s in segs
    ensures var p, e := s + HEADER, s + segs[s] - HEADER;
            && p in b && b[p].seg == s && p < e && Tag(m, p) % 4 != 3 && PrevTag(m, p) == FIRST_MARK && Tag(m, e) == HEADER + 3
  {
    hide TileInv, TagsRep;
    var p, e := s + HEADER, s + segs[s] - HEADER;
    SegmentEnds(h, segs, b, s);
    Bounds(h, segs, b, p);
    TagReads(h, segs, m, b, p);
    TagsAt(m, b, e);
    Bounds(h, segs, b, e);
  }

  lemma WalkStep(h: int, segs: map<int, int>, m: Mem, b: Blocks, p: int)
    requires TileInv(h, segs, b) && TagsRep(m, b) && p in b && Tag(m, p) % 4 != 3
    ensures Tag(m, p) - Tag(m, p) % 4 == b[p].size && b[p].seg in segs
    ensures var n, s := p + b[p].size, b[p].seg;
            && n in b && b[n].seg == s && p < n <= s + segs[s] - HEADER && (n == s + segs[s] - HEADER <==> Tag(m, n) % 4 == 3)
            && forall a :: a in b && p < a ==> n <= a
  {
    hide TileInv, TagsRep;
    TagReads(h, segs, m, b, p);
    Links(h, segs, b, p);
    Bounds(h, segs, b, p);
    var n := p + b[p].size;
    TagReads(h, segs, m, b, n);
    Bounds(h, segs, b, n);
    forall a | a in b && p < a ensures n <= a { Order(h, segs, b, p, a); }
  }
}
