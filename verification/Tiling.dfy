/** Segments cut into blocks: the boundary-tag structure as a value, and the one operation that all
    of alloc, free, realloc and flush perform on it. */
module Tiling {
  import opened Words
  import opened Index

  /** `Live(req)` holds a payload of at least `req` bytes; a cached block keeps its USED tag. */
  datatype Kind = Free | Live(req: int) | Cached | Guard

  /** `prev` is the size of the block in front, 0 for the first of its segment `seg`. */
  datatype Blk = Blk(size: int, kind: Kind, prev: int, seg: int)

  type Blocks = map<int, Blk>

  ghost predicate SegsInv(h: int, segs: map<int, int>)
  {
    && h > 0 && h % 8 == 0
    && (forall s :: s in segs ==>
          && s > 0 && s % 8 == 0 && segs[s] % 8 == 0 && segs[s] >= 2 * HEADER + MIN_BLOCK && s + segs[s] <= WORD
          && (s + segs[s] <= h || h + STRUCT_SIZE <= s))
    && (forall s, t :: s in segs && t in segs && s != t ==> s + segs[s] <= t || t + segs[t] <= s)
  }

  /** Block `a` lies between header and guard of its segment; only the guard ends it. */
  ghost predicate Within(segs: map<int, int>, b: Blocks, a: int)
    requires a in b
  {
    var s := b[a].seg;
    && s in segs && s + HEADER <= a && a % 8 == 0 && b[a].size % 8 == 0
    && (if b[a].kind.Guard? then b[a].size == HEADER && a == s + segs[s] - HEADER
        else b[a].size >= MIN_BLOCK && a + b[a].size <= s + segs[s] - HEADER)
  }

  ghost predicate NextLinked(b: Blocks, a: int)
    requires a in b
  {
    !b[a].kind.Guard? ==>
      var n := a + b[a].size;
      n in b && b[n].seg == b[a].seg && b[n].prev == b[a].size
  }

  ghost predicate PrevLinked(b: Blocks, a: int)
    requires a in b
  {
    if b[a].prev == 0 then a == b[a].seg + HEADER
    else
      var p := a - b[a].prev;
      p in b && b[p].seg == b[a].seg && b[p].size == b[a].prev && !b[p].kind.Guard?
  }

  ghost predicate NoOverlap(b: Blocks)
  {
    forall a, c :: a in b && c in b && a < c ==> a + b[a].size <= c
  }

  ghost predicate Ends(segs: map<int, int>, b: Blocks)
  {
    forall s {:trigger EndBlocks(segs, b, s)} :: s in segs ==> EndBlocks(segs, b, s)
  }

  ghost predicate EndBlocks(segs: map<int, int>, b: Blocks, s: int)
    requires s in segs
  {
    && s + HEADER in b && b[s + HEADER].seg == s && b[s + HEADER].prev == 0
    && s + segs[s] - HEADER in b && b[s + segs[s] - HEADER].kind.Guard? && b[s + segs[s] - HEADER].seg == s
  }

  /** Every segment is cut, without gap or overlap, into aligned blocks up to its guard. */
  ghost predicate TileInv(h: int, segs: map<int, int>, b: Blocks)
  {
    && SegsInv(h, segs) && Ends(segs, b) && NoOverlap(b)
    && (forall a {:trigger Within(segs, b, a)} :: a in b ==> Within(segs, b, a))
    && (forall a {:trigger NextLinked(b, a)} :: a in b ==> NextLinked(b, a))
    && (forall a {:trigger PrevLinked(b, a)} :: a in b ==> PrevLinked(b, a))
  }

  /** No two free blocks touch, and no segment is one free block. */
  ghost predicate Coalesced(b: Blocks)
  {
    forall a {:trigger FreeApart(b, a)} :: a in b ==> FreeApart(b, a)
  }

  ghost predicate FreeApart(b: Blocks, a: int)
    requires a in b
  {
    b[a].kind.Free? ==>
      var n := a + b[a].size;
      n in b ==> !b[n].kind.Free? && (b[a].prev == 0 ==> !b[n].kind.Guard?)
  }

  ghost function FreeOf(b: Blocks): map<int, int>
  {
    map a | a in b && b[a].kind.Free? :: b[a].size
  }

  lemma TilesSpread(h: int, segs: map<int, int>, b: Blocks)
    requires TileInv(h, segs, b)
    ensures Spread(h, FreeOf(b))
  {
    var d := FreeOf(b);
    forall a | a in d ensures Within(segs, b, a) { }
    hide NextLinked, PrevLinked, Ends;
  }

  // ---------- carving ----------

  /** The run of blocks from `a` up to `e` becomes one block of `s` bytes and kind `k1`, followed,
      if anything is left, by a block of kind `k2`. */
  ghost function Carve(b: Blocks, a: int, e: int, s: int, k1: Kind, k2: Kind): Blocks
    requires a in b && e in b && a < e
  {
    var kept: Blocks := map c | c in b && !(a <= c < e) :: b[c];
    var b1 := kept[a := Blk(s, k1, b[a].prev, b[a].seg)];
    if s == e - a then b1[e := b[e].(prev := s)]
    else b1[a + s := Blk(e - a - s, k2, s, b[a].seg)][e := b[e].(prev := e - a - s)]
  }

  ghost predicate CanCarve(b: Blocks, a: int, e: int, s: int)
  {
    && a in b && e in b && a < e && b[a].seg == b[e].seg
    && s % 8 == 0 && s >= MIN_BLOCK && (s == e - a || s + MIN_BLOCK <= e - a)
  }

  lemma CarveAt(b: Blocks, a: int, e: int, s: int, k1: Kind, k2: Kind, c: int)
    requires CanCarve(b, a, e, s)
    ensures var b' := Carve(b, a, e, s, k1, k2);
            && (c in b' <==> c == a || (c == a + s && s != e - a) || (c in b && !(a <= c < e)))
            && (c == a ==> b'[c] == Blk(s, k1, b[a].prev, b[a].seg))
            && (c == a + s && s != e - a ==> b'[c] == Blk(e - a - s, k2, s, b[a].seg))
            && (c == e ==> c in b' && b'[c] == b[e].(prev := if s == e - a then s else e - a - s))
            && (c in b && !(a <= c <= e) ==> b'[c] == b[c])
  {
  }

  lemma CarveDisjoint(h: int, segs: map<int, int>, b: Blocks, a: int, e: int, s: int, k1: Kind, k2: Kind)
    requires TileInv(h, segs, b) && CanCarve(b, a, e, s)
    ensures NoOverlap(Carve(b, a, e, s, k1, k2))
  {
    var b' := Carve(b, a, e, s, k1, k2);
    hide Within, NextLinked, PrevLinked, Ends, SegsInv, Carve;
    forall c, d | c in b' && d in b' && c < d ensures c + b'[c].size <= d {
      CarveAt(b, a, e, s, k1, k2, c);
      CarveAt(b, a, e, s, k1, k2, d);
      CarveAt(b, a, e, s, k1, k2, a);
      CarveAt(b, a, e, s, k1, k2, e);
      CarveAt(b, a, e, s, k1, k2, a + s);
    }
  }

  /** Where a block lies, and that it is not empty. */
  lemma Bounds(h: int, segs: map<int, int>, b: Blocks, a: int)
    requires TileInv(h, segs, b) && a in b
    ensures b[a].size >= HEADER && a % 8 == 0 && b[a].size % 8 == 0 && b[a].seg in segs
    ensures b[a].seg + HEADER <= a && a + b[a].size <= b[a].seg + segs[b[a].seg]
    ensures !b[a].kind.Guard? ==> b[a].size >= MIN_BLOCK && a + b[a].size <= b[a].seg + segs[b[a].seg] - HEADER
    ensures b[a].kind.Guard? ==> a == b[a].seg + segs[b[a].seg] - HEADER && b[a].size == HEADER
  {
    hide NextLinked, PrevLinked, Ends, SegsInv, NoOverlap;
    assert Within(segs, b, a);
  }

  lemma CarveWithin(h: int, segs: map<int, int>, b: Blocks, a: int, e: int, s: int, k1: Kind, k2: Kind)
    requires TileInv(h, segs, b) && CanCarve(b, a, e, s) && !k1.Guard? && !k2.Guard?
    ensures var b' := Carve(b, a, e, s, k1, k2); forall c {:trigger Within(segs, b', c)} :: c in b' ==> Within(segs, b', c)
  {
    hide TileInv, Carve;
    var b' := Carve(b, a, e, s, k1, k2);
    Bounds(h, segs, b, a);
    Bounds(h, segs, b, e);
    CutAligned(a, e, s);
    forall c | c in b' ensures Within(segs, b', c) {
      CarveAt(b, a, e, s, k1, k2, c);
      if c in b && c != a { Bounds(h, segs, b, c); }
    }
  }

  lemma CutAligned(a: int, e: int, s: int)
    requires a % 8 == 0 && e % 8 == 0 && s % 8 == 0
    ensures (a + s) % 8 == 0 && (e - a - s) % 8 == 0
  {
  }

  /** The neighbours of a block. */
  lemma Links(h: int, segs: map<int, int>, b: Blocks, a: int)
    requires TileInv(h, segs, b) && a in b
    ensures NextLinked(b, a) && PrevLinked(b, a) && b[a].size > 0 && b[a].prev >= 0
  {
    hide Within, Ends, SegsInv, NoOverlap;
    Bounds(h, segs, b, a);
    assert NextLinked(b, a) && PrevLinked(b, a);
    if b[a].prev != 0 { Bounds(h, segs, b, a - b[a].prev); }
  }

  lemma Order(h: int, segs: map<int, int>, b: Blocks, a: int, c: int)
    requires TileInv(h, segs, b) && a in b && c in b
    ensures a < c ==> a + b[a].size <= c
  {
    hide Within, Ends, SegsInv, NextLinked, PrevLinked;
  }

  lemma CarveNext(h: int, segs: map<int, int>, b: Blocks, a: int, e: int, s: int, k1: Kind, k2: Kind)
    requires TileInv(h, segs, b) && CanCarve(b, a, e, s) && !k1.Guard? && !k2.Guard?
    ensures var b' := Carve(b, a, e, s, k1, k2); forall c {:trigger NextLinked(b', c)} :: c in b' ==> NextLinked(b', c)
  {
    hide TileInv, Carve;
    var b' := Carve(b, a, e, s, k1, k2);
    CarveAt(b, a, e, s, k1, k2, a);
    CarveAt(b, a, e, s, k1, k2, e);
    CarveAt(b, a, e, s, k1, k2, a + s);
    forall c | c in b' ensures NextLinked(b', c) {
      CarveAt(b, a, e, s, k1, k2, c);
      if c in b && !(a <= c < e) {
        Links(h, segs, b, c);
        Order(h, segs, b, c, a);
        CarveAt(b, a, e, s, k1, k2, c + b[c].size);
      }
    }
  }

  lemma CarvePrev(h: int, segs: map<int, int>, b: Blocks, a: int, e: int, s: int, k1: Kind, k2: Kind)
    requires TileInv(h, segs, b) && CanCarve(b, a, e, s) && !k1.Guard? && !k2.Guard?
    ensures var b' := Carve(b, a, e, s, k1, k2); forall c {:trigger PrevLinked(b', c)} :: c in b' ==> PrevLinked(b', c)
  {
    hide TileInv, Carve;
    var b' := Carve(b, a, e, s, k1, k2);
    CarveAt(b, a, e, s, k1, k2, a);
    CarveAt(b, a, e, s, k1, k2, a + s);
    forall c | c in b' ensures PrevLinked(b', c) {
      CarveAt(b, a, e, s, k1, k2, c);
      if c in b && !(a < c <= e) {
        Links(h, segs, b, c);
        if b[c].prev != 0 {
          var p := c - b[c].prev;
          Links(h, segs, b, p);
          Order(h, segs, b, p, e);
          Order(h, segs, b, p, a);
          CarveAt(b, a, e, s, k1, k2, p);
        }
      }
    }
  }

  lemma CarveEnds(h: int, segs: map<int, int>, b: Blocks, a: int, e: int, s: int, k1: Kind, k2: Kind)
    requires TileInv(h, segs, b) && CanCarve(b, a, e, s) && !k1.Guard? && !k2.Guard?
    ensures Ends(segs, Carve(b, a, e, s, k1, k2))
  {
    hide TileInv, Carve;
    var b' := Carve(b, a, e, s, k1, k2);
    forall t | t in segs ensures EndBlocks(segs, b', t) {
      SegmentEnds(h, segs, b, t);
      OutsideRun(h, segs, b, a, e, t);
      CarveAt(b, a, e, s, k1, k2, t + HEADER);
      CarveAt(b, a, e, s, k1, k2, t + segs[t] - HEADER);
    }
  }

  lemma SegmentEnds(h: int, segs: map<int, int>, b: Blocks, t: int)
    requires TileInv(h, segs, b) && t in segs
    ensures EndBlocks(segs, b, t) && segs[t] >= 2 * HEADER + MIN_BLOCK
  {
    hide Within, NextLinked, PrevLinked, NoOverlap;
  }

  /** A run inside a segment never covers a guard, nor a first block other than as its start. */
  lemma OutsideRun(h: int, segs: map<int, int>, b: Blocks, a: int, e: int, t: int)
    requires TileInv(h, segs, b) && a in b && e in b && a < e && b[a].seg == b[e].seg && t in segs
    ensures !(a < t + HEADER <= e) && !(a <= t + segs[t] - HEADER < e)
  {
    hide TileInv;
    SegmentEnds(h, segs, b, t);
    Bounds(h, segs, b, a);
    Bounds(h, segs, b, e);
    Bounds(h, segs, b, t + HEADER);
    Bounds(h, segs, b, t + segs[t] - HEADER);
    SameSegment(h, segs, b, a, t + HEADER);
    SameSegment(h, segs, b, e, t + HEADER);
    SameSegment(h, segs, b, a, t + segs[t] - HEADER);
    SameSegment(h, segs, b, e, t + segs[t] - HEADER);
  }

  /** Blocks of different segments are far apart. */
  lemma SameSegment(h: int, segs: map<int, int>, b: Blocks, a: int, c: int)
    requires TileInv(h, segs, b) && a in b && c in b
    ensures b[a].seg != b[c].seg ==>
              (if b[a].seg < b[c].seg then a + b[a].size <= b[c].seg else c + b[c].size <= b[a].seg)
  {
    Bounds(h, segs, b, a);
    Bounds(h, segs, b, c);
    hide Within, NextLinked, PrevLinked, Ends, NoOverlap;
  }

  /** Carving keeps the tiling. */
  lemma CarveTiled(h: int, segs: map<int, int>, b: Blocks, a: int, e: int, s: int, k1: Kind, k2: Kind)
    requires TileInv(h, segs, b) && CanCarve(b, a, e, s) && !k1.Guard? && !k2.Guard?
    ensures TileInv(h, segs, Carve(b, a, e, s, k1, k2))
  {
    hide Within, NextLinked, PrevLinked, Ends, SegsInv, Carve, NoOverlap;
    CarveDisjoint(h, segs, b, a, e, s, k1, k2);
    CarveWithin(h, segs, b, a, e, s, k1, k2);
    CarveNext(h, segs, b, a, e, s, k1, k2);
    CarvePrev(h, segs, b, a, e, s, k1, k2);
    CarveEnds(h, segs, b, a, e, s, k1, k2);
  }

  /** When the carved run leaves no free neighbours, free blocks stay coalesced. */
  ghost predicate CarveKeepsApart(b: Blocks, a: int, e: int, s: int, k1: Kind, k2: Kind)
    requires a in b && e in b && a < e
  {
    if k1.Free? then
      && s == e - a && !b[e].kind.Free? && (b[a].prev == 0 ==> !b[e].kind.Guard?)
      && (b[a].prev != 0 && a - b[a].prev in b ==> !b[a - b[a].prev].kind.Free?)
    else s == e - a || (k2.Free? ==> !b[e].kind.Free?)
  }

  /** As `Coalesced`, except for the blocks from `a` to `e`. */
  ghost predicate CoalescedBut(b: Blocks, a: int, e: int)
  {
    forall c {:trigger FreeApart(b, c)} :: c in b && !(a <= c < e) ==> FreeApart(b, c)
  }

  lemma CoalescedRun(b: Blocks, a: int, e: int)
    requires Coalesced(b)
    ensures CoalescedBut(b, a, e)
  {
    forall c | c in b ensures FreeApart(b, c) { ApartAt(b, c); }
  }

  lemma CarveCoalesced(h: int, segs: map<int, int>, b: Blocks, a: int, e: int, s: int, k1: Kind, k2: Kind)
    requires TileInv(h, segs, b) && CanCarve(b, a, e, s) && !k1.Guard? && !k2.Guard? && CoalescedBut(b, a, e)
    requires CarveKeepsApart(b, a, e, s, k1, k2)
    ensures Coalesced(Carve(b, a, e, s, k1, k2))
  {
    hide TileInv, Carve, Coalesced, CoalescedBut;
    var b' := Carve(b, a, e, s, k1, k2);
    CarveAt(b, a, e, s, k1, k2, a);
    CarveAt(b, a, e, s, k1, k2, e);
    CarveAt(b, a, e, s, k1, k2, a + s);
    Links(h, segs, b, a);
    forall c | c in b' ensures FreeApart(b', c) {
      CarveAt(b, a, e, s, k1, k2, c);
      CarveAt(b, a, e, s, k1, k2, c + b'[c].size);
      if c in b && !(a <= c < e) {
        Links(h, segs, b, c);
        Order(h, segs, b, c, a);
        ApartOutside(b, a, e, c);
      }
    }
    AllApart(b');
  }

  lemma ApartOutside(b: Blocks, a: int, e: int, c: int)
    requires CoalescedBut(b, a, e) && c in b && !(a <= c < e)
    ensures FreeApart(b, c)
  {
  }

  lemma ApartAt(b: Blocks, c: int)
    requires Coalesced(b) && c in b
    ensures FreeApart(b, c)
  {
  }

  lemma AllApart(b: Blocks)
    requires forall c {:trigger FreeApart(b, c)} :: c in b ==> FreeApart(b, c)
    ensures Coalesced(b)
  {
  }

  // ---------- adding and dropping a segment ----------

  ghost function AddSegment(b: Blocks, seg: int, size: int): Blocks
  {
    b[seg + HEADER := Blk(size - 2 * HEADER, Free, 0, seg)]
     [seg + size - HEADER := Blk(HEADER, Guard, size - 2 * HEADER, seg)]
  }

  ghost function DropSegment(b: Blocks, seg: int): Blocks
  {
    map a | a in b && b[a].seg != seg :: b[a]
  }

  lemma AddSegmentTiled(h: int, segs: map<int, int>, b: Blocks, seg: int, size: int)
    requires TileInv(h, segs, b) && seg !in segs && SegsInv(h, segs[seg := size])
    ensures TileInv(h, segs[seg := size], AddSegment(b, seg, size))
  {
    hide TileInv, AddSegment;
    var segs' := segs[seg := size];
    assert seg in segs' && segs'[seg] == size;
    forall a | a in b ensures a + b[a].size <= seg || seg + size <= a {
      Bounds(h, segs, b, a);
      assert b[a].seg in segs' && segs'[b[a].seg] == segs[b[a].seg];
    }
    forall a | a in b ensures b[a].size > 0 { Bounds(h, segs, b, a); }
    assert seg + HEADER !in b && seg + size - HEADER !in b;
    NewSegmentBlocks(h, segs, b, seg, size);
    NewSegmentLinks(h, segs, b, seg, size);
    assert TileInv(h, segs', AddSegment(b, seg, size)) by { TileParts(h, segs', AddSegment(b, seg, size)); }
  }

  lemma TileParts(h: int, segs: map<int, int>, b: Blocks)
    requires SegsInv(h, segs) && Ends(segs, b) && NoOverlap(b)
    requires forall a {:trigger Within(segs, b, a)} :: a in b ==> Within(segs, b, a)
    requires forall a {:trigger NextLinked(b, a)} :: a in b ==> NextLinked(b, a)
    requires forall a {:trigger PrevLinked(b, a)} :: a in b ==> PrevLinked(b, a)
    ensures TileInv(h, segs, b)
  {
  }

  lemma NewSegmentBlocks(h: int, segs: map<int, int>, b: Blocks, seg: int, size: int)
    requires TileInv(h, segs, b) && seg !in segs && SegsInv(h, segs[seg := size])
    requires forall a :: a in b ==> a + b[a].size <= seg || seg + size <= a
    requires forall a :: a in b ==> b[a].size > 0
    requires seg + HEADER !in b && seg + size - HEADER !in b
    ensures var segs', b' := segs[seg := size], AddSegment(b, seg, size);
            && NoOverlap(b') && Ends(segs', b')
            && forall a {:trigger Within(segs', b', a)} :: a in b' ==> Within(segs', b', a)
  {
    var segs', b' := segs[seg := size], AddSegment(b, seg, size);
    assert seg in segs' && segs'[seg] == size;
    assert segs'[seg] % 8 == 0 && seg % 8 == 0 && size >= 2 * HEADER + MIN_BLOCK;
    hide SegsInv, TileInv;
    NewSegmentWithin(h, segs, b, seg, size);
    hide Within;
    forall t | t in segs' ensures EndBlocks(segs', b', t) { if t in segs { SegmentEnds(h, segs, b, t); } }
    forall a, c | a in b' && c in b' && a < c ensures a + b'[a].size <= c {
      if a in b && c in b { Order(h, segs, b, a, c); }
    }
  }

  lemma NewSegmentWithin(h: int, segs: map<int, int>, b: Blocks, seg: int, size: int)
    requires TileInv(h, segs, b) && seg !in segs && seg % 8 == 0 && size % 8 == 0 && size >= 2 * HEADER + MIN_BLOCK
    ensures var segs', b' := segs[seg := size], AddSegment(b, seg, size);
            forall a {:trigger Within(segs', b', a)} :: a in b' ==> Within(segs', b', a)
  {
    hide TileInv;
    var segs', b' := segs[seg := size], AddSegment(b, seg, size);
    forall a | a in b' ensures Within(segs', b', a) { if a in b { Bounds(h, segs, b, a); } }
  }

  lemma NewSegmentLinks(h: int, segs: map<int, int>, b: Blocks, seg: int, size: int)
    requires TileInv(h, segs, b) && size >= 2 * HEADER + MIN_BLOCK
    requires seg + HEADER !in b && seg + size - HEADER !in b
    ensures var b' := AddSegment(b, seg, size);
            && (forall a {:trigger NextLinked(b', a)} :: a in b' ==> NextLinked(b', a))
            && (forall a {:trigger PrevLinked(b', a)} :: a in b' ==> PrevLinked(b', a))
  {
    hide TileInv;
    var b' := AddSegment(b, seg, size);
    forall a | a in b' ensures NextLinked(b', a) { if a in b { Links(h, segs, b, a); } }
    forall a | a in b' ensures PrevLinked(b', a) { if a in b { Links(h, segs, b, a); } }
  }

  lemma SegsLess(h: int, segs: map<int, int>, seg: int)
    requires SegsInv(h, segs)
    ensures SegsInv(h, segs - {seg})
  {
  }

  lemma DropWithin(h: int, segs: map<int, int>, b: Blocks, seg: int)
    requires TileInv(h, segs, b)
    ensures var segs', b' := segs - {seg}, DropSegment(b, seg);
            forall a {:trigger Within(segs', b', a)} :: a in b' ==> Within(segs', b', a)
  {
    hide TileInv;
    var segs', b' := segs - {seg}, DropSegment(b, seg);
    forall a | a in b' ensures Within(segs', b', a) { Bounds(h, segs, b, a); }
  }

  lemma DropLinks(h: int, segs: map<int, int>, b: Blocks, seg: int)
    requires TileInv(h, segs, b)
    ensures var b' := DropSegment(b, seg);
            && (forall a {:trigger NextLinked(b', a)} :: a in b' ==> NextLinked(b', a))
            && (forall a {:trigger PrevLinked(b', a)} :: a in b' ==> PrevLinked(b', a))
  {
    hide TileInv;
    var b' := DropSegment(b, seg);
    forall a | a in b' ensures NextLinked(b', a) { Links(h, segs, b, a); }
    forall a | a in b' ensures PrevLinked(b', a) { Links(h, segs, b, a); }
  }

  lemma DropSegmentTiled(h: int, segs: map<int, int>, b: Blocks, seg: int)
    requires TileInv(h, segs, b)
    ensures TileInv(h, segs - {seg}, DropSegment(b, seg))
  {
    var segs', b' := segs - {seg}, DropSegment(b, seg);
    SegsLess(h, segs, seg);
    hide SegsInv, TileInv;
    DropWithin(h, segs, b, seg);
    DropLinks(h, segs, b, seg);
    forall t | t in segs' ensures EndBlocks(segs', b', t) { SegmentEnds(h, segs, b, t); }
    forall a, c | a in b' && c in b' && a < c ensures a + b'[a].size <= c { Order(h, segs, b, a, c); }
    TileParts(h, segs', b');
  }

  lemma DropCoalesced(b: Blocks, seg: int)
    requires forall c {:trigger FreeApart(b, c)} :: c in b && b[c].seg != seg ==> FreeApart(b, c)
    ensures Coalesced(DropSegment(b, seg))
  {
    var b' := DropSegment(b, seg);
    forall c | c in b' ensures FreeApart(b', c) { assert FreeApart(b, c); }
  }

  /** Everything but the inside of a new segment stays coalesced. */
  lemma AddCoalesced(h: int, segs: map<int, int>, b: Blocks, seg: int, size: int)
    requires TileInv(h, segs, b) && Coalesced(b) && size > 2 * HEADER && seg + HEADER !in b && seg + size - HEADER !in b
    ensures CoalescedBut(AddSegment(b, seg, size), seg + HEADER, seg + size - HEADER)
  {
    hide TileInv, Coalesced;
    var b' := AddSegment(b, seg, size);
    forall c | c in b' && !(seg + HEADER <= c < seg + size - HEADER) ensures FreeApart(b', c) {
      if c in b { ApartAt(b, c); Links(h, segs, b, c); }
    }
  }
}
