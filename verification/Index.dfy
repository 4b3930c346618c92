/** The free-block index of a heap: 64 rings of small blocks, 64 tries of large blocks and the rest
    ring, all threaded through flat memory and the slots of the heap structure at address `h`. */
module Index {
  import opened Words
  import opened Memory
  import opened Trie
  import opened TrieOps

  // Offsets inside struct _zend_mm_heap (64-bit layout).
  const STRUCT_SIZE: int := 2224
  function SegmentsSlot(h: int): int { h + 64 }                   // segments_list
  function CacheSlot(h: int, i: int): int { h + 152 + 8 * i }     // cache[i]
  function SmallHead(h: int, i: int): int { h + 648 + 16 * i }    // ZEND_MM_SMALL_FREE_BUCKET(heap, i)
  function LargeSlot(h: int, i: int): int { h + 1688 + 8 * i }    // &large_free_buckets[i]
  function RestHead(h: int): int { h + 2184 }                     // ZEND_MM_REST_BUCKET(heap)
  const REST_MARK: int := 1                                       // ZEND_MM_REST_BLOCK

  datatype Loc = InSmall(i: int) | InRest | InTrie(i: int)

  /** `size` gives the indexed blocks with their sizes, `loc` the one structure that holds each. */
  datatype Index = Index(size: map<int, int>, loc: map<int, Loc>,
                         smalls: seq<seq<int>>, rest: seq<int>, tries: seq<Trie>)

  /** Blocks are aligned, at least minimal, disjoint from one another and from the heap structure. */
  ghost predicate Spread(h: int, d: map<int, int>)
  {
    && h > 0 && h % 8 == 0
    && (forall a :: a in d ==>
          && a > 0 && a % 8 == 0 && d[a] % 8 == 0 && d[a] >= MIN_BLOCK && a + d[a] <= WORD
          && (a + d[a] <= h || h + STRUCT_SIZE <= a))
    && (forall a, b :: a in d && b in d && a != b ==> a + d[a] <= b || b + d[b] <= a)
  }

  /** `loc` and the lists say the same thing, and each block is where its size belongs. */
  ghost predicate Placed(x: Index)
  {
    && |x.smalls| == NUM_BUCKETS && |x.tries| == NUM_BUCKETS
    && x.loc.Keys == x.size.Keys
    && SmallsListed(x) && RestListed(x) && TriesListed(x) && Sized(x)
  }

  ghost predicate SmallsListed(x: Index)
    requires |x.smalls| == NUM_BUCKETS
  {
    forall i, a :: 0 <= i < NUM_BUCKETS ==> (a in x.smalls[i] <==> a in x.loc && x.loc[a] == InSmall(i))
  }

  ghost predicate RestListed(x: Index)
  {
    forall a :: a in x.rest <==> a in x.loc && x.loc[a] == InRest
  }

  ghost predicate TriesListed(x: Index)
    requires |x.tries| == NUM_BUCKETS
  {
    forall i, a :: 0 <= i < NUM_BUCKETS ==> (a in Members(x.tries[i]) <==> a in x.loc && x.loc[a] == InTrie(i))
  }

  ghost predicate Sized(x: Index)
  {
    && (forall a :: a in x.loc && x.loc[a].InSmall? ==>
          0 <= x.loc[a].i < NUM_BUCKETS && a in x.size && x.size[a] == MIN_BLOCK + 8 * x.loc[a].i)
    && (forall a :: a in x.loc && x.loc[a].InTrie? ==>
          0 <= x.loc[a].i < NUM_BUCKETS && a in x.size && x.size[a] >= MAX_SMALL)
  }

  /** The lists as they lie in memory. */
  ghost predicate Linked(m: Mem, h: int, x: Index)
    requires |x.smalls| == NUM_BUCKETS && |x.tries| == NUM_BUCKETS
  {
    && (forall i :: 0 <= i < NUM_BUCKETS ==> Ring(m, [SmallHead(h, i)] + x.smalls[i]))
    && Ring(m, [RestHead(h)] + x.rest)
    && (forall i :: 0 <= i < NUM_BUCKETS ==> Rep(m, LargeSlot(h, i), x.tries[i]))
  }

  ghost predicate Marked(m: Mem, x: Index)
  {
    && (forall a :: a in x.size ==> Tag(m, a) == x.size[a])
    && (forall a :: a in x.size && a in x.loc && x.loc[a] == InRest && x.size[a] >= MAX_SMALL ==> Parent(m, a) == REST_MARK)
  }

  ghost predicate Shaped(x: Index)
    requires |x.tries| == NUM_BUCKETS
  {
    forall i :: 0 <= i < NUM_BUCKETS ==> Shape(x.tries[i], i, 1)
  }

  ghost predicate IndexInv(m: Mem, h: int, x: Index)
  {
    Spread(h, x.size) && Placed(x) && Linked(m, h, x) && Marked(m, x) && Shaped(x)
  }

  // ---------- which words belong to which list ----------

  /** Words of the list `g`: its slots in the heap structure and the interiors of its blocks. */
  ghost predicate GroupWord(h: int, x: Index, g: Loc, w: int)
  {
    || (match g
        case InSmall(i) => h + 664 + 16 * i <= w < h + 680 + 16 * i
        case InRest => h + 2200 <= w < h + 2216
        case InTrie(i) => LargeSlot(h, i) <= w < LargeSlot(h, i) + 8)
    || (exists a :: a in x.size && a in x.loc && x.loc[a] == g && a + 16 <= w < a + x.size[a])
  }

  /** Only words of list `g`, and of the block `b` of `n` bytes, may differ. */
  ghost predicate OnlyGroup(m: Mem, m': Mem, h: int, x: Index, g: Loc, b: int, n: int)
  {
    forall w :: !GroupWord(h, x, g, w) && !(b + 16 <= w < b + n) ==> Rd(m', w) == Rd(m, w)
  }

  /** The block `b` of `n` bytes is either foreign to the index or a member of list `g`. */
  ghost predicate OwnBlock(h: int, x: Index, g: Loc, b: int, n: int)
  {
    if b in x.size then b in x.loc && x.loc[b] == g && n == x.size[b] else Spread(h, x.size[b := n])
  }

  ghost predicate GoodLoc(g: Loc)
  {
    g.InRest? || 0 <= g.i < NUM_BUCKETS
  }

  /** Blocks of other lists keep every word. */
  lemma OutsideGroup(m: Mem, m': Mem, h: int, x: Index, g: Loc, b: int, n: int, a: int)
    requires Spread(h, x.size) && OwnBlock(h, x, g, b, n) && GoodLoc(g) && OnlyGroup(m, m', h, x, g, b, n)
    requires a in x.size && a in x.loc && x.loc[a] != g
    ensures forall w :: a <= w < a + x.size[a] ==> Rd(m', w) == Rd(m, w)
  {
    assert b !in x.size ==> a in x.size[b := n] && b in x.size[b := n];
    forall w | a <= w < a + x.size[a] ensures Rd(m', w) == Rd(m, w) {
      assert !GroupWord(h, x, g, w);
    }
  }

  lemma OutsideNode(m: Mem, m': Mem, h: int, x: Index, g: Loc, b: int, n: int, a: int)
    requires Spread(h, x.size) && OwnBlock(h, x, g, b, n) && GoodLoc(g) && OnlyGroup(m, m', h, x, g, b, n)
    requires a in x.size && a in x.loc && x.loc[a] != g
    ensures SameLinks(m, m', a)
    ensures x.size[a] >= MAX_SMALL ==> SameNode(m, m', a) && SameChildren(m, m', a)
  {
    assert x.size[a] >= MIN_BLOCK;
    OutsideGroup(m, m', h, x, g, b, n, a);
    hide Spread, OwnBlock, GroupWord, OnlyGroup;
  }

  lemma TagOutside(m: Mem, m': Mem, h: int, x: Index, g: Loc, b: int, n: int, a: int)
    requires Spread(h, x.size) && OwnBlock(h, x, g, b, n) && GoodLoc(g) && OnlyGroup(m, m', h, x, g, b, n)
    requires a in x.size && a != b
    ensures Tag(m', a) == Tag(m, a)
  {
    assert b !in x.size ==> a in x.size[b := n] && b in x.size[b := n];
    assert !GroupWord(h, x, g, a);
  }

  lemma HeadOutside(m: Mem, m': Mem, h: int, x: Index, g: Loc, b: int, n: int, w: int)
    requires Spread(h, x.size) && OwnBlock(h, x, g, b, n) && GoodLoc(g) && OnlyGroup(m, m', h, x, g, b, n)
    requires h <= w < h + STRUCT_SIZE
    requires match g
             case InSmall(i) => !(h + 664 + 16 * i <= w < h + 680 + 16 * i)
             case InRest => !(h + 2200 <= w < h + 2216)
             case InTrie(i) => !(LargeSlot(h, i) <= w < LargeSlot(h, i) + 8)
    ensures Rd(m', w) == Rd(m, w)
  {
    assert b !in x.size ==> b in x.size[b := n];
    assert !GroupWord(h, x, g, w);
  }

  /** A ring whose head and members lie outside list `g` survives a change confined to `g`. */
  lemma OtherRing(m: Mem, m': Mem, h: int, x: Index, g: Loc, b: int, n: int, head: int, r: seq<int>, o: Loc)
    requires Spread(h, x.size) && OwnBlock(h, x, g, b, n) && GoodLoc(g) && OnlyGroup(m, m', h, x, g, b, n)
    requires Ring(m, [head] + r) && o != g && GoodLoc(o) && !o.InTrie?
    requires head == (if o.InRest? then RestHead(h) else SmallHead(h, o.i))
    requires forall a :: a in r ==> a in x.size && a in x.loc && x.loc[a] == o
    ensures Ring(m', [head] + r)
  {
    hide Ring, Spread, OwnBlock, GroupWord, OnlyGroup;
    forall a | a in [head] + r ensures SameLinks(m, m', a) {
      if a == head {
        HeadOutside(m, m', h, x, g, b, n, a + 16);
        HeadOutside(m, m', h, x, g, b, n, a + 24);
      } else {
        assert a in r;
        OutsideNode(m, m', h, x, g, b, n, a);
      }
    }
    RingFrame(m, m', [head] + r);
  }

  lemma OtherTrie(m: Mem, m': Mem, h: int, x: Index, g: Loc, b: int, n: int, t: Trie, o: Loc)
    requires Spread(h, x.size) && OwnBlock(h, x, g, b, n) && GoodLoc(g) && OnlyGroup(m, m', h, x, g, b, n)
    requires o != g && GoodLoc(o) && o.InTrie? && Rep(m, LargeSlot(h, o.i), t)
    requires forall a :: a in Members(t) ==> a in x.size && a in x.loc && x.loc[a] == o && x.size[a] >= MAX_SMALL
    ensures Rep(m', LargeSlot(h, o.i), t)
  {
    hide Rep, Members, Spread, OwnBlock, GroupWord, OnlyGroup;
    forall a | a in Members(t) ensures SameNode(m, m', a) && SameChildren(m, m', a) {
      OutsideNode(m, m', h, x, g, b, n, a);
    }
    HeadOutside(m, m', h, x, g, b, n, LargeSlot(h, o.i));
    RepFrame(m, m', LargeSlot(h, o.i), t);
  }

  /** Changes confined to one list leave all others, all tags and all rest marks alone. */
  lemma OthersKept(m: Mem, m': Mem, h: int, x: Index, g: Loc, b: int, n: int)
    requires IndexInv(m, h, x) && OwnBlock(h, x, g, b, n) && GoodLoc(g) && OnlyGroup(m, m', h, x, g, b, n)
    ensures forall i :: 0 <= i < NUM_BUCKETS && g != InSmall(i) ==> Ring(m', [SmallHead(h, i)] + x.smalls[i])
    ensures g != InRest ==> Ring(m', [RestHead(h)] + x.rest)
    ensures forall i :: 0 <= i < NUM_BUCKETS && g != InTrie(i) ==> Rep(m', LargeSlot(h, i), x.tries[i])
    ensures forall a :: a in x.size && a != b ==> Tag(m', a) == x.size[a]
    ensures forall a :: a in x.size && x.loc[a] == InRest && g != InRest && x.size[a] >= MAX_SMALL ==>
              Parent(m', a) == REST_MARK
  {
    hide Ring, Rep, Members, Spread, OwnBlock, OnlyGroup, GroupWord, Shape, SmallHead, LargeSlot, RestHead;
    forall i | 0 <= i < NUM_BUCKETS && g != InSmall(i) ensures Ring(m', [SmallHead(h, i)] + x.smalls[i]) {
      OtherRing(m, m', h, x, g, b, n, SmallHead(h, i), x.smalls[i], InSmall(i));
    }
    if g != InRest { OtherRing(m, m', h, x, g, b, n, RestHead(h), x.rest, InRest); }
    forall i | 0 <= i < NUM_BUCKETS && g != InTrie(i) ensures Rep(m', LargeSlot(h, i), x.tries[i]) {
      OtherTrie(m, m', h, x, g, b, n, x.tries[i], InTrie(i));
    }
    forall a | a in x.size && a != b ensures Tag(m', a) == x.size[a] { TagOutside(m, m', h, x, g, b, n, a); }
    forall a | a in x.size && x.loc[a] == InRest && g != InRest && x.size[a] >= MAX_SMALL ensures Parent(m', a) == REST_MARK {
      OutsideNode(m, m', h, x, g, b, n, a);
    }
  }

  // ---------- the effect of index operations as values ----------

  function Log2(n: nat): nat { if n <= 1 then 0 else 1 + Log2(n / 2) }

  lemma {:induction false} Log2Leading(n: nat, i: nat)
    requires n > 0
    ensures Shr(n, i) == 1 <==> i == Log2(n)
    decreases n
  {
    if n > 1 {
      if i > 0 { Log2Leading(n / 2, i - 1); }
    } else if i > 0 { ShrZero(i - 1); }
  }

  ghost function AddSmall(x: Index, b: int, s: int): Index
    requires |x.smalls| == NUM_BUCKETS && 0 <= BucketIndex(s) < NUM_BUCKETS
  {
    var i := BucketIndex(s);
    x.(size := x.size[b := s], loc := x.loc[b := InSmall(i)], smalls := x.smalls[i := [b] + x.smalls[i]])
  }

  ghost function AddTrie(x: Index, b: int, s: nat): Index
    requires |x.tries| == NUM_BUCKETS && Shaped(x) && MAX_SMALL <= s < WORD
  {
    var i := Log2(s);
    LargeBucket(s);
    x.(size := x.size[b := s], loc := x.loc[b := InTrie(i)], tries := x.tries[i := Insert(x.tries[i], b, s, i)])
  }

  lemma LargeBucket(s: nat)
    requires 0 < s < WORD
    ensures Log2(s) < NUM_BUCKETS && Shr(s, Log2(s)) == 1
  {
    Log2Leading(s, Log2(s));
    if Log2(s) >= 64 { ShrOut(s, Log2(s)); assert false; }
  }

  lemma ShrOut(s: nat, j: nat)
    requires s < WORD && j >= 64
    ensures Shr(s, j) == 0
  {
    Pow2At64();
    ShrZeroIsSmall(s, 64);
    ShrShr(s, 64, j - 64);
    ShrZero(j - 64);
  }

  ghost function AddRest(x: Index, b: int, s: int): Index
  {
    x.(size := x.size[b := s], loc := x.loc[b := InRest], rest := x.rest + [b])
  }

  /** The index after `zend_mm_add_to_free_list`. */
  ghost function AddFree(x: Index, b: int, s: nat): Index
    requires |x.smalls| == NUM_BUCKETS && |x.tries| == NUM_BUCKETS && Shaped(x) && MIN_BLOCK <= s < WORD
  {
    if s < MAX_SMALL then AddSmall(x, b, s) else AddTrie(x, b, s)
  }

  function Without(r: seq<int>, b: int): seq<int>
    requires b in r
  {
    Drop(r, IndexOf(r, b))
  }

  /** The index after `zend_mm_remove_from_free_list`. */
  ghost function RemoveFree(x: Index, b: int): Index
    requires Placed(x) && Shaped(x) && b in x.size
  {
    var y := x.(size := x.size - {b}, loc := x.loc - {b});
    match x.loc[b]
    case InSmall(i) => y.(smalls := x.smalls[i := Without(x.smalls[i], b)])
    case InRest => y.(rest := Without(x.rest, b))
    case InTrie(i) =>
      ShapeDisjoint(x.tries[i], i, 1);
      y.(tries := x.tries[i := Remove(x.tries[i], b)])
  }

  // ---------- re-establishing the invariant ----------

  lemma AddSmallInv(m: Mem, m': Mem, h: int, x: Index, b: int, s: int)
    requires IndexInv(m, h, x) && b !in x.size && Spread(h, x.size[b := s]) && MIN_BLOCK <= s < MAX_SMALL && s % 8 == 0
    requires OnlyGroup(m, m', h, x, InSmall(BucketIndex(s)), b, s)
    requires Ring(m', [SmallHead(h, BucketIndex(s))] + ([b] + x.smalls[BucketIndex(s)])) && Tag(m', b) == s
    ensures IndexInv(m', h, AddSmall(x, b, s))
  {
    hide SmallsListed, RestListed, TriesListed, Sized, Ring, Rep, Members, Spread, OnlyGroup, Shape, SmallHead,
         LargeSlot, RestHead;
    AddSmallPlaced(x, b, s);
    OthersKept(m, m', h, x, InSmall(BucketIndex(s)), b, s);
  }

  lemma AddSmallPlaced(x: Index, b: int, s: int)
    requires Placed(x) && Shaped(x) && b !in x.size && MIN_BLOCK <= s < MAX_SMALL && s % 8 == 0
    ensures Placed(AddSmall(x, b, s)) && Shaped(AddSmall(x, b, s))
  {
    var y := AddSmall(x, b, s);
    assert b !in x.loc;
    forall i, a | 0 <= i < NUM_BUCKETS ensures a in y.smalls[i] <==> a in y.loc && y.loc[a] == InSmall(i) {
      assert a in x.smalls[i] <==> a in x.loc && x.loc[a] == InSmall(i);
    }
  }

  lemma AddRestInv(m: Mem, m': Mem, h: int, x: Index, b: int, s: int)
    requires IndexInv(m, h, x) && b !in x.size && Spread(h, x.size[b := s])
    requires OnlyGroup(m, m', h, x, InRest, b, s)
    requires Ring(m', [RestHead(h)] + (x.rest + [b])) && Tag(m', b) == s
    requires (s >= MAX_SMALL ==> Parent(m', b) == REST_MARK)
    requires forall a :: a in x.rest && x.size[a] >= MAX_SMALL ==> Parent(m', a) == REST_MARK
    ensures IndexInv(m', h, AddRest(x, b, s))
  {
    hide SmallsListed, RestListed, TriesListed, Sized, Ring, Rep, Members, Spread, OnlyGroup, Shape, SmallHead,
         LargeSlot, RestHead;
    AddRestPlaced(x, b, s);
    OthersKept(m, m', h, x, InRest, b, s);
  }

  lemma AddRestPlaced(x: Index, b: int, s: int)
    requires Placed(x) && Shaped(x) && b !in x.size
    ensures Placed(AddRest(x, b, s)) && Shaped(AddRest(x, b, s))
    ensures forall a :: a in x.loc && x.loc[a] == InRest ==> a in x.rest
  {
    hide Members, Shape;
    var y := AddRest(x, b, s);
    assert b !in x.loc;
    assert SmallsListed(y) && TriesListed(y) && RestListed(y) && Sized(y);
  }

  lemma AddTrieInv(m: Mem, m': Mem, h: int, x: Index, b: int, s: nat)
    requires IndexInv(m, h, x) && b !in x.size && Spread(h, x.size[b := s]) && MAX_SMALL <= s < WORD
    requires OnlyGroup(m, m', h, x, InTrie(Log2(s)), b, s)
    requires Log2(s) < NUM_BUCKETS && Shr(s, Log2(s)) == 1
    requires Rep(m', LargeSlot(h, Log2(s)), Insert(x.tries[Log2(s)], b, s, Log2(s))) && Tag(m', b) == s
    ensures IndexInv(m', h, AddTrie(x, b, s))
  {
    hide SmallsListed, RestListed, TriesListed, Sized, Ring, Rep, Members, Spread, OnlyGroup, Shape, SmallHead,
         LargeSlot, RestHead, Insert, Log2, Shr;
    AddTriePlaced(x, b, s);
    OthersKept(m, m', h, x, InTrie(Log2(s)), b, s);
  }

  lemma AddTriePlaced(x: Index, b: int, s: nat)
    requires Placed(x) && Shaped(x) && b !in x.size && MAX_SMALL <= s < WORD
    requires Log2(s) < NUM_BUCKETS && Shr(s, Log2(s)) == 1
    ensures Placed(AddTrie(x, b, s)) && Shaped(AddTrie(x, b, s))
  {
    hide Insert, Log2, Shr, Shape, Members, SmallsListed, RestListed, Sized;
    var i := Log2(s);
    assert b !in Members(x.tries[i]);
    InsertKeepsShape(x.tries[i], b, s, i);
    ReplacedTriePlaced(x, AddTrie(x, b, s), b, s, i, Insert(x.tries[i], b, s, i));
  }

  lemma ReplacedTriePlaced(x: Index, y: Index, b: int, s: nat, i: int, n: Trie)
    requires Placed(x) && Shaped(x) && b !in x.size && MAX_SMALL <= s < WORD && 0 <= i < NUM_BUCKETS
    requires Members(n) == Members(x.tries[i]) + {b} && Shape(n, i, 1)
    requires y == x.(size := x.size[b := s], loc := x.loc[b := InTrie(i)], tries := x.tries[i := n])
    ensures Placed(y) && Shaped(y)
  {
    hide Shape, Members;
    assert SmallsListed(y) && RestListed(y) && Sized(y);
    forall j, a | 0 <= j < NUM_BUCKETS ensures a in Members(y.tries[j]) <==> a in y.loc && y.loc[a] == InTrie(j) {
      hide SmallsListed, RestListed, Sized;
      assert a in Members(x.tries[j]) <==> a in x.loc && x.loc[a] == InTrie(j);
    }
  }

  lemma WithoutElems(r: seq<int>, b: int)
    requires b in r && Distinct(r)
    ensures forall a :: a in Without(r, b) <==> a in r && a != b
  {
    var k, q := IndexOf(r, b), Without(r, b);
    forall a | a in r && a != b ensures a in q {
      var i :| 0 <= i < |r| && r[i] == a;
      assert q[if i < k then i else i - 1] == a;
    }
    forall a | a in q ensures a in r && a != b {
      var i :| 0 <= i < |q| && q[i] == a;
      assert r[if i < k then i else i + 1] == a;
    }
  }

  lemma SpreadLess(h: int, d: map<int, int>, b: int)
    requires Spread(h, d)
    ensures Spread(h, d - {b})
  {
  }

  lemma RingTail(m: Mem, head: int, r: seq<int>)
    requires Ring(m, [head] + r)
    ensures Distinct(r) && head !in r
  {
    var q := [head] + r;
    TailDistinct(q);
    assert q[1..] == r;
  }

  lemma TailDistinct(q: seq<int>)
    requires Distinct(q) && |q| > 0
    ensures Distinct(q[1..]) && q[0] !in q[1..]
  {
    var r := q[1..];
    assert forall i :: 0 <= i < |r| ==> r[i] == q[i + 1];
  }

  lemma RemoveSmallInv(m: Mem, m': Mem, h: int, x: Index, b: int, i: int)
    requires IndexInv(m, h, x) && b in x.size && x.loc[b] == InSmall(i)
    requires OnlyGroup(m, m', h, x, InSmall(i), b, x.size[b])
    requires 0 <= i < NUM_BUCKETS && b in x.smalls[i] && Ring(m', [SmallHead(h, i)] + Without(x.smalls[i], b))
    ensures IndexInv(m', h, RemoveFree(x, b))
  {
    hide SmallsListed, RestListed, TriesListed, Sized, Ring, Rep, Members, Spread, OnlyGroup, Shape, SmallHead,
         LargeSlot, RestHead, Without;
    SpreadLess(h, x.size, b);
    RingTail(m, SmallHead(h, i), x.smalls[i]);
    RemoveSmallPlaced(x, b, i);
    OthersKept(m, m', h, x, InSmall(i), b, x.size[b]);
  }

  lemma RemoveSmallPlaced(x: Index, b: int, i: int)
    requires Placed(x) && Shaped(x) && b in x.size && x.loc[b] == InSmall(i)
    requires 0 <= i < NUM_BUCKETS && b in x.smalls[i] && Distinct(x.smalls[i])
    ensures Placed(RemoveFree(x, b))
  {
    WithoutElems(x.smalls[i], b);
    var y := RemoveFree(x, b);
    hide Members, Without, Shaped, Distinct;
    assert TriesListed(y) && RestListed(y) && Sized(y);
    forall j, a | 0 <= j < NUM_BUCKETS ensures a in y.smalls[j] <==> a in y.loc && y.loc[a] == InSmall(j) {
      hide TriesListed, RestListed, Sized;
      assert a in x.smalls[j] <==> a in x.loc && x.loc[a] == InSmall(j);
    }
  }

  lemma RemoveRestInv(m: Mem, m': Mem, h: int, x: Index, b: int)
    requires IndexInv(m, h, x) && b in x.size && x.loc[b] == InRest && b in x.rest
    requires OnlyGroup(m, m', h, x, InRest, b, x.size[b])
    requires Ring(m', [RestHead(h)] + Without(x.rest, b))
    requires forall a :: a in x.rest && x.size[a] >= MAX_SMALL ==> Parent(m', a) == Parent(m, a)
    ensures IndexInv(m', h, RemoveFree(x, b))
  {
    hide SmallsListed, RestListed, TriesListed, Sized, Ring, Rep, Members, Spread, OnlyGroup, Shape, SmallHead,
         LargeSlot, RestHead, Without;
    SpreadLess(h, x.size, b);
    RingTail(m, RestHead(h), x.rest);
    RemoveRestPlaced(x, b);
    OthersKept(m, m', h, x, InRest, b, x.size[b]);
  }

  lemma RemoveRestPlaced(x: Index, b: int)
    requires Placed(x) && Shaped(x) && b in x.size && x.loc[b] == InRest && b in x.rest && Distinct(x.rest)
    ensures Placed(RemoveFree(x, b))
    ensures forall a :: a in x.loc && x.loc[a] == InRest ==> a in x.rest
  {
    WithoutElems(x.rest, b);
    var y := RemoveFree(x, b);
    hide Members, Without, Shaped, Distinct;
    assert TriesListed(y) && SmallsListed(y) && Sized(y);
  }

  lemma RemoveTrieInv(m: Mem, m': Mem, h: int, x: Index, b: int, i: int)
    requires IndexInv(m, h, x) && b in x.size && x.loc[b] == InTrie(i) && 0 <= i < NUM_BUCKETS
    requires OnlyGroup(m, m', h, x, InTrie(i), b, x.size[b])
    requires b in Members(x.tries[i]) && Disjoint(x.tries[i])
    requires Rep(m', LargeSlot(h, i), Remove(x.tries[i], b))
    ensures IndexInv(m', h, RemoveFree(x, b))
  {
    hide SmallsListed, RestListed, TriesListed, Sized, Ring, Rep, Members, Spread, OnlyGroup, Shape, SmallHead,
         LargeSlot, RestHead, Remove, Disjoint;
    SpreadLess(h, x.size, b);
    RemovedTrie(m, h, x, b, i);
    RemoveTriePlaced(x, b, i);
    OthersKept(m, m', h, x, InTrie(i), b, x.size[b]);
  }

  lemma RemoveTriePlaced(x: Index, b: int, i: int)
    requires Placed(x) && Shaped(x) && b in x.size && x.loc[b] == InTrie(i) && 0 <= i < NUM_BUCKETS
    requires b in Members(x.tries[i]) && Disjoint(x.tries[i])
    requires Shape(Remove(x.tries[i], b), i, 1) && Members(Remove(x.tries[i], b)) == Members(x.tries[i]) - {b}
    ensures Placed(RemoveFree(x, b)) && Shaped(RemoveFree(x, b))
  {
    hide Members, Shape, Disjoint, Remove;
    var y := RemoveFree(x, b);
    assert SmallsListed(y) && RestListed(y) && Sized(y);
    forall j, a | 0 <= j < NUM_BUCKETS ensures a in Members(y.tries[j]) <==> a in y.loc && y.loc[a] == InTrie(j) {
      hide SmallsListed, RestListed, Sized;
      assert a in Members(x.tries[j]) <==> a in x.loc && x.loc[a] == InTrie(j);
    }
  }

  lemma RemovedTrie(m: Mem, h: int, x: Index, b: int, i: int)
    requires IndexInv(m, h, x) && 0 <= i < NUM_BUCKETS && b in Members(x.tries[i]) && Disjoint(x.tries[i])
    ensures Shape(Remove(x.tries[i], b), i, 1)
    ensures Members(Remove(x.tries[i], b)) == Members(x.tries[i]) - {b}
  {
    var t := x.tries[i];
    SubRep(m, LargeSlot(h, i), t, HeadOf(t, b));
    RemoveKeepsShape(t, b, i, 1);
  }
}
