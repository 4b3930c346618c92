/** Single steps of the free-list code on the index: safe unlinking, trie descent, eviction. */
module IndexSteps {
  import opened Words
  import opened Memory
  import opened Trie
  import opened TrieOps
  import opened Index
  import opened IndexOps
  import opened TrieIndex
  import opened Bitmaps

  /** Safe-unlinking reads on any indexed block: the ring is consistent around it, a block that is
      its own neighbour is a lone trie block, and a block with a parent slot is what the slot holds. */
  lemma LinksSafe(m: Mem, h: int, x: Index, b: int)
    requires IndexInv(m, h, x) && b in x.size
    ensures NextF(m, PrevF(m, b)) == b && PrevF(m, NextF(m, b)) == b
    ensures PrevF(m, b) == b ==> NextF(m, b) == b && b in x.loc && x.loc[b].InTrie? && Parent(m, b) > 1
    ensures b in x.loc && x.loc[b].InTrie? && Parent(m, b) != 0 ==> Rd(m, Parent(m, b)) == b && Parent(m, b) > 1
    ensures b in x.loc && Tag(m, b) == x.size[b] && Placed(x) && Shaped(x)
    ensures x.loc[b].InSmall? ==> Tag(m, b) < MAX_SMALL
    ensures x.loc[b].InTrie? ==> Tag(m, b) >= MAX_SMALL
    ensures x.loc[b] == InRest && Tag(m, b) >= MAX_SMALL ==> Parent(m, b) == REST_MARK
    ensures x.size[b] % 8 == 0 && x.size[b] >= MIN_BLOCK
  {
    hide Ring, Rep, Members, Shape, SmallsListed, RestListed, TriesListed, OnlyGroup, AtNode;
    match x.loc[b]
    case InSmall(i) => SmallRemoved(m, h, x, b, i);
    case InRest => RestRemoved(m, h, x, b); RestMembers(m, h, x);
    case InTrie(i) =>
      TrieNode(m, h, x, b, i);
      var t := x.tries[i];
      var hd := HeadOf(t, b);
      NodeLinks(m, t, b, hd, SlotOf(t, LargeSlot(h, i), hd));
      NodeSlot(m, t, b, hd, SlotOf(t, LargeSlot(h, i), hd));
  }

  ghost predicate LargeIn(x: Index, a: int)
  {
    a in x.size && x.size[a] >= MAX_SMALL
  }

  /** How many of the oldest rest blocks a newcomer pushes out: none below the cap, else all small
      ones in front of the first large one, and that one. */
  ghost predicate Evicted(x: Index, count: int, e: int)
  {
    && 0 <= e <= |x.rest|
    && (count < MAX_REST ==> e == 0)
    && (count >= MAX_REST ==>
          && e > 0 && LargeIn(x, x.rest[e - 1])
          && forall k :: 0 <= k < e - 1 ==> !LargeIn(x, x.rest[k]))
  }

  lemma FrameRefl(m: Mem, h: int, d: map<int, int>)
    ensures IndexFrame(m, m, h, d)
  {
  }

  /** A positive count means the list is not empty. */
  lemma FullRest(m: Mem, h: int, x: Index, rc: int)
    requires IndexInv(m, h, x) && CountOk(rc, x) && rc >= MAX_REST
    ensures x.rest != []
  {
    hide Spread, Ring, Rep, Members, Shape, SmallsListed, TriesListed;
    if forall a :: a !in RestLarge(x) { assert false; }
    var a :| a in RestLarge(x);
    assert a in x.rest;
  }

  lemma OldestOut(m: Mem, h: int, x: Index, fb: nat, lb: nat, tidy: bool, p: int)
    requires IndexInv(m, h, x) && BitsOk(fb, lb, x, tidy) && x.rest != [] && p == NextF(m, RestHead(h))
    ensures p == x.rest[0] && p in x.size && p in x.loc && x.loc[p] == InRest && Tag(m, p) == x.size[p]
    ensures Placed(x) && Shaped(x)
    ensures var m' := Unlink(m, PrevF(m, p), NextF(m, p));
            var y := RemoveFree(x, p);
            && IndexInv(m', h, y) && BitsOk(fb, lb, y, tidy) && IndexFrame(m, m', h, x.size)
            && Tag(m', p) == x.size[p] && p !in y.size && Spread(h, y.size[p := x.size[p]]) && MIN_BLOCK <= x.size[p] < WORD
            && y.size[p := x.size[p]] == x.size && y.rest == x.rest[1..]
  {
    hide Ring, Rep, Members, Shape, SmallsListed, TriesListed, BitsOk, OnlyGroup, IndexFrame;
    RestFirst(m, h, x);
    RestRemoved(m, h, x, p);
    RestDistinct(m, h, x);
    assert x.size[p] % 8 == 0 && x.size[p] >= MIN_BLOCK && x.size[p] < WORD;
    BitsRemoveRest(fb, lb, x, tidy, tidy, p, false);
    SameMap(x.size, p);
    GroupFrame(m, Unlink(m, PrevF(m, p), NextF(m, p)), h, x, InRest, p, x.size[p]);
    assert RemoveFree(x, p).size[p := x.size[p]] == x.size;
    FirstOut(x.rest);
  }

  lemma RestFirst(m: Mem, h: int, x: Index)
    requires IndexInv(m, h, x) && x.rest != []
    ensures NextF(m, RestHead(h)) == x.rest[0] && x.rest[0] in x.size && x.rest[0] in x.loc
    ensures x.loc[x.rest[0]] == InRest
    ensures Tag(m, x.rest[0]) == x.size[x.rest[0]]
  {
    RestMembers(m, h, x);
    var q := [RestHead(h)] + x.rest;
    assert q[0] == RestHead(h) && After(q, 0) == x.rest[0];
    assert x.rest[0] in x.rest;
    hide Ring, Rep, Members, Shape, SmallsListed, TriesListed;
    RingLinked(m, q, 0);
  }

  lemma FirstOut(r: seq<int>)
    requires r != []
    ensures Without(r, r[0]) == r[1..]
  {
  }

  lemma UnlinkIs(m: Mem, prev: int, next: int)
    ensures Unlink(m, prev, next) == Wr(Wr(m, prev + 24, next), next + 16, prev)
  {
  }

  lemma BackIn(x: Index, p: int)
    requires Placed(x) && Shaped(x) && p in x.size && x.loc[p] == InRest && MIN_BLOCK <= x.size[p] < WORD
    ensures var y := RemoveFree(x, p);
            && |y.smalls| == NUM_BUCKETS && |y.tries| == NUM_BUCKETS && Shaped(y)
            && AddFree(y, p, x.size[p]).size == x.size && AddFree(y, p, x.size[p]).rest == y.rest
  {
    hide Shape, Members, SmallsListed, TriesListed, RestListed, Sized, Insert, Log2;
    var y := RemoveFree(x, p);
    assert y.size[p := x.size[p]] == x.size;
  }

  /** A block outside the index keeps its tag across an index operation. */
  lemma StillAddable(m: Mem, m': Mem, h: int, x: Index, b: int, s: int)
    requires b !in x.size && Spread(h, x.size[b := s]) && IndexFrame(m, m', h, x.size)
    ensures Tag(m', b) == Tag(m, b)
  {
    var d := x.size[b := s];
    assert b in d;
    forall a | a in x.size ensures !(a + 16 <= b < a + x.size[a]) { assert a in d && d[a] == x.size[a]; }
    assert !Interior(x.size, b);
  }

  lemma MarkWritten(m: Mem, m1: Mem, h: int, x: Index, b: int, s: int)
    requires IndexInv(m, h, x) && b !in x.size && Spread(h, x.size[b := s]) && Tag(m, b) == s
    requires m1 == if Small(s) then m else Wr(m, b + 32, REST_MARK)
    ensures IndexInv(m1, h, x) && Tag(m1, b) == s && (s >= MAX_SMALL ==> Parent(m1, b) == REST_MARK)
    ensures IndexFrame(m, m1, h, x.size[b := s])
  {
    if !Small(s) {
      hide Ring, Rep, Members, Shape, SmallsListed, TriesListed, RestListed, Sized, Spread, GroupWord;
      assert OnlyGroup(m, m1, h, x, InRest, b, s);
      GroupFrame(m, m1, h, x, InRest, b, s);
      OutsideWrite(m, m1, h, x, b, s);
    } else {
      FrameRefl(m, h, x.size[b := s]);
    }
  }

  /** A write inside a block that is not indexed does not disturb the index. */
  lemma OutsideWrite(m: Mem, m1: Mem, h: int, x: Index, b: int, s: int)
    requires IndexInv(m, h, x) && b !in x.size && Spread(h, x.size[b := s])
    requires forall w :: !(b + 16 <= w < b + s) ==> Rd(m1, w) == Rd(m, w)
    ensures IndexInv(m1, h, x)
  {
    hide Ring, Rep, Members, Shape, SmallsListed, TriesListed, RestListed, Sized, Spread, GroupWord;
    assert OnlyGroup(m, m1, h, x, InRest, b, s) && OwnBlock(h, x, InRest, b, s);
    OthersKept(m, m1, h, x, InRest, b, s);
    assert OnlyGroup(m, m1, h, x, InSmall(0), b, s) && OwnBlock(h, x, InSmall(0), b, s);
    OthersKept(m, m1, h, x, InSmall(0), b, s);
  }

  /** The leaf search of the removal: down from child `c` of `b` until no child is left. */
  method FindLeaf(mem: Mem, b: int, c: int, ghost u: Trie) returns (prev: int, rp: int)
    requires Rep(mem, ChildSlot(b, c), u) && Disjoint(u) && u.Node? && 0 !in Members(u)
    ensures |Leaf(u).ring| > 0 && IsHead(u, Leaf(u).ring[0])
    ensures prev == Leaf(u).ring[0] && rp == SlotOf(u, ChildSlot(b, c), prev)
  {
    ghost var slot := ChildSlot(b, c);
    rp := ChildSlot(b, c);
    prev := Rd(mem, rp);
    LeafIsHead(u);
    ghost var cur := u;
    hide Disjoint, Members, Leaf, SlotOf;
    LeafStart(mem, slot, u);
    hide Rep, Sub, IsHead;
    while Child(mem, prev, if Child(mem, prev, 1) != 0 then 1 else 0) != 0
      invariant IsHead(u, prev) && Sub(u, prev) == cur && rp == SlotOf(u, slot, prev)
      invariant Rep(mem, rp, cur) && cur.Node? && cur.ring[0] == prev && 0 !in Members(cur) && Leaf(cur) == Leaf(u)
      decreases cur
    {
      LoneChildren(mem, rp, cur);
      var cp := ChildSlot(prev, if Child(mem, prev, 1) != 0 then 1 else 0);
      LeafTurn(mem, slot, u, prev, cur);
      prev := Rd(mem, cp);
      rp := cp;
      cur := if cur.right.Node? then cur.right else cur.left;
    }
    LoneChildren(mem, rp, cur);
    LeafEnd(cur);
  }

  lemma LeafStart(m: Mem, slot: int, u: Trie)
    requires Rep(m, slot, u) && u.Node?
    ensures |u.ring| > 0 && Rd(m, slot) == u.ring[0] && IsHead(u, u.ring[0]) && Sub(u, u.ring[0]) == u
    ensures SlotOf(u, slot, u.ring[0]) == slot
  {
  }

  lemma LeafTurn(m: Mem, slot: int, u: Trie, prev: int, cur: Trie)
    requires Rep(m, slot, u) && Disjoint(u) && IsHead(u, prev) && Sub(u, prev) == cur && 0 !in Members(cur)
    requires cur.Node? && (cur.right.Node? || cur.left.Node?)
    ensures var n := if cur.right.Node? then cur.right else cur.left;
            var cp := ChildSlot(prev, if cur.right.Node? then 1 else 0);
            && Rep(m, cp, n) && |n.ring| > 0 && Rd(m, cp) == n.ring[0] && IsHead(u, n.ring[0]) && Sub(u, n.ring[0]) == n
            && cp == SlotOf(u, slot, n.ring[0]) && 0 !in Members(n) && Leaf(n) == Leaf(cur)
  {
    ChildTurn(m, slot, u, prev, cur, if cur.right.Node? then 1 else 0);
    SubMembers(u, prev);
  }

  lemma SubMembers(u: Trie, prev: int)
    requires Disjoint(u) && IsHead(u, prev)
    ensures Disjoint(Sub(u, prev)) && Members(Sub(u, prev)) <= Members(u)
  {
    HeadIsMember(u, prev);
    ReplaceMembers(u, prev, Nil);
  }

  lemma LeafEnd(cur: Trie)
    requires cur.Node? && cur.left.Nil? && cur.right.Nil?
    ensures Leaf(cur) == cur
  {
  }

  lemma LeafTree(m: Mem, h: int, x: Index, b: int, i: int, c: int) returns (u: Trie)
    requires IndexInv(m, h, x) && b in x.size && x.loc[b] == InTrie(i) && PrevF(m, b) == b
    requires c == (if Child(m, b, 1) != 0 then 1 else 0) && Child(m, b, c) != 0
    ensures 0 <= i < |x.tries| && b in Members(x.tries[i]) && Disjoint(x.tries[i])
    ensures var cur := Sub(x.tries[i], HeadOf(x.tries[i], b)); u == (if c == 1 then cur.right else cur.left)
    ensures Rep(m, ChildSlot(b, c), u) && Disjoint(u) && u.Node? && 0 !in Members(u)
  {
    hide IndexInv, RingOf, Apart, SlotClear;
    TrieNode(m, h, x, b, i);
    var t := x.tries[i];
    var hd := HeadOf(t, b);
    var sl := SlotOf(t, LargeSlot(h, i), hd);
    NodeLinks(m, t, b, hd, sl);
    var cur := Sub(t, hd);
    LoneChildren(m, sl, cur);
    u := if c == 1 then cur.right else cur.left;
  }

  lemma TrieSizeBound(m: Mem, h: int, x: Index, b: int)
    requires IndexInv(m, h, x) && b in x.size && x.loc[b].InTrie?
    ensures 0 < x.size[b] < WORD
  {
    hide Ring, Rep, Members, Shape, SmallsListed, RestListed, Shr;
    var i := x.loc[b].i;
    MemberPrefix(m, LargeSlot(h, i), x.tries[i], i, 1, b);
    ShrBounds(x.size[b], i);
    Pow2At64();
    Pow2Monotone(i + 1, 64);
  }

  lemma SameMap(d: map<int, int>, b: int)
    requires b in d
    ensures d[b := d[b]] == d
  {
  }

  /** Only a block of the rest list can take a bit with it. */
  lemma KeepsBit(x: Index, b: int)
    requires Placed(x) && b in x.size && x.loc[b] != InRest
    ensures !LosesBit(x, b)
  {
    hide SmallsListed, TriesListed, Members;
    assert b !in x.rest;
  }

  lemma RemovedSmall(m: Mem, h: int, x: Index, b: int, fb: nat, lb: nat, tidy: bool)
    requires IndexInv(m, h, x) && BitsOk(fb, lb, x, tidy) && b in x.size && b in x.loc && x.size[b] < MAX_SMALL
    ensures Placed(x) && Shaped(x) && !x.loc[b].InTrie?
    ensures 0 <= BucketIndex(x.size[b]) < NUM_BUCKETS
    ensures var prev, next := PrevF(m, b), NextF(m, b);
            var m' := Wr(Wr(m, prev + 24, next), next + 16, prev);
            var i := BucketIndex(x.size[b]);
            var clear := prev == next && Rd(m', SmallHead(h, i) + 16) == Rd(m', SmallHead(h, i) + 24);
            && IndexInv(m', h, RemoveFree(x, b)) && IndexFrame(m, m', h, x.size)
            && BitsOk(if clear then ClearBit(fb, i) else fb, lb, RemoveFree(x, b), tidy && !LosesBit(x, b))
  {
    hide Ring, Rep, Members, Shape, SmallsListed, RestListed, TriesListed, BitsOk, OnlyGroup, IndexFrame, ClearBit;
    var prev, next := PrevF(m, b), NextF(m, b);
    var m' := Wr(Wr(m, prev + 24, next), next + 16, prev);
    var s := x.size[b];
    var i := BucketIndex(s);
    SameMap(x.size, b);
    match x.loc[b]
    case InSmall(j) =>
      SmallRemoved(m, h, x, b, j);
      assert j == i;
      BitsRemoveSmall(fb, lb, x, tidy, b, j);
      KeepsBit(x, b);
      GroupFrame(m, m', h, x, InSmall(j), b, s);
      SmallEmpty(m', h, RemoveFree(x, b), j);
      assert |RemoveFree(x, b).smalls[j]| == |x.smalls[j]| - 1;
    case InRest =>
      RestRemoved(m, h, x, b);
      RestDistinct(m, h, x);
      SmallEmpty(m', h, RemoveFree(x, b), i);
      var clear := prev == next && Rd(m', SmallHead(h, i) + 16) == Rd(m', SmallHead(h, i) + 24);
      BitsRemoveRest(fb, lb, x, tidy, tidy && !LosesBit(x, b), b, clear);
      GroupFrame(m, m', h, x, InRest, b, s);
  }

  /** The bitmap after `zend_mm_remove_from_free_list` has unlinked the small block `b`. */
  function BitmapAfter(m: Mem, h: int, b: int, size: int, fb: nat): nat
    requires 0 <= BucketIndex(size)
  {
    var prev, next := PrevF(m, b), NextF(m, b);
    var m' := Unlink(m, prev, next);
    var i := BucketIndex(size);
    if prev == next && PrevF(m', SmallHead(h, i)) == NextF(m', SmallHead(h, i)) then ClearBit(fb, i) else fb
  }

  /** What `zend_mm_remove_from_free_list` makes of index and small bitmap. */
  ghost predicate TakenOff(m: Mem, h: int, x: Index, fb: nat, x': Index, fb': nat, b: int)
  {
    && Placed(x) && Shaped(x) && b in x.size && x' == RemoveFree(x, b)
    && (x.size[b] < MAX_SMALL ==> 0 <= BucketIndex(x.size[b]) && fb' == BitmapAfter(m, h, b, x.size[b], fb))
  }

  /** What `zend_mm_add_to_free_list` makes of the index. */
  ghost predicate FiledAs(x: Index, x': Index, b: int, s: int)
  {
    && |x.smalls| == NUM_BUCKETS && |x.tries| == NUM_BUCKETS && Shaped(x) && MIN_BLOCK <= s < WORD
    && x' == AddFree(x, b, s)
  }

  /** What `zend_mm_add_to_rest_list` makes of them while the list is not full. */
  ghost predicate JoinedRest(x: Index, fb: nat, x': Index, fb': nat, b: int, s: int)
  {
    x' == AddRest(x, b, s) && fb' == fb
  }

  lemma RestDistinct(m: Mem, h: int, x: Index)
    requires IndexInv(m, h, x)
    ensures Distinct(x.rest)
  {
    RestMembers(m, h, x);
    RingTail(m, RestHead(h), x.rest);
  }

  lemma RemovedLargeRest(m: Mem, h: int, x: Index, b: int, fb: nat, lb: nat, tidy: bool)
    requires IndexInv(m, h, x) && BitsOk(fb, lb, x, tidy) && b in x.size && b in x.loc && x.size[b] >= MAX_SMALL
    requires var prev, next := PrevF(m, b), NextF(m, b);
             prev != b && Parent(Wr(Wr(m, prev + 24, next), next + 16, prev), b) == REST_MARK
    ensures Placed(x) && Shaped(x) && x.loc[b] == InRest
    ensures var prev, next := PrevF(m, b), NextF(m, b);
            var m' := Wr(Wr(m, prev + 24, next), next + 16, prev);
            IndexInv(m', h, RemoveFree(x, b)) && IndexFrame(m, m', h, x.size) && BitsOk(fb, lb, RemoveFree(x, b), tidy)
  {
    hide Ring, Rep, Members, Shape, SmallsListed, RestListed, TriesListed, BitsOk, OnlyGroup, IndexFrame, ClearBit;
    var prev, next := PrevF(m, b), NextF(m, b);
    var m' := Wr(Wr(m, prev + 24, next), next + 16, prev);
    LinksSafe(m, h, x, b);
    if x.loc[b].InTrie? {
      ParentKept(m, h, x, b);
      assert false;
    }
    RestRemoved(m, h, x, b);
    RestDistinct(m, h, x);
    BitsRemoveRest(fb, lb, x, tidy, tidy, b, false);
    SameMap(x.size, b);
    GroupFrame(m, m', h, x, InRest, b, x.size[b]);
  }

  /** Unlinking a trie block does not touch its parent word. */
  lemma ParentKept(m: Mem, h: int, x: Index, b: int)
    requires IndexInv(m, h, x) && b in x.size && b in x.loc && x.loc[b].InTrie?
    ensures var prev, next := PrevF(m, b), NextF(m, b);
            Parent(Wr(Wr(m, prev + 24, next), next + 16, prev), b) == Parent(m, b)
  {
    hide IndexInv, Rep, Members, Disjoint, RingOf, SlotClear;
    var i := x.loc[b].i;
    TrieNode(m, h, x, b, i);
    var t := x.tries[i];
    var hd := HeadOf(t, b);
    NodeLinks(m, t, b, hd, SlotOf(t, LargeSlot(h, i), hd));
  }

  lemma RemovedLargeRing(m: Mem, h: int, x: Index, b: int, fb: nat, lb: nat, tidy: bool)
    requires IndexInv(m, h, x) && BitsOk(fb, lb, x, tidy) && b in x.size && b in x.loc && x.size[b] >= MAX_SMALL
    requires var prev, next := PrevF(m, b), NextF(m, b);
             prev != b && Parent(Wr(Wr(m, prev + 24, next), next + 16, prev), b) != REST_MARK
    ensures Placed(x) && Shaped(x) && x.loc[b].InTrie?
    ensures var prev, next := PrevF(m, b), NextF(m, b);
            var m1 := Wr(Wr(m, prev + 24, next), next + 16, prev);
            var m' := if Parent(m1, b) != 0 then SubstWrites(m1, Parent(m1, b), b, prev) else m1;
            && IndexInv(m', h, RemoveFree(x, b)) && IndexFrame(m, m', h, x.size) && BitsOk(fb, lb, RemoveFree(x, b), tidy)
            && (Parent(m1, b) != 0 ==> SubstReady(m1, Parent(m1, b), b, prev))
  {
    hide Ring, Rep, Members, Shape, SmallsListed, RestListed, TriesListed, BitsOk, OnlyGroup, IndexFrame, ClearBit,
         SubstWrites, SubstReady;
    var prev, next := PrevF(m, b), NextF(m, b);
    var m1 := Wr(Wr(m, prev + 24, next), next + 16, prev);
    LinksSafe(m, h, x, b);
    if x.loc[b] == InRest {
      RestRemoved(m, h, x, b);
      assert false;
    }
    var i := x.loc[b].i;
    ParentKept(m, h, x, b);
    SameMap(x.size, b);
    if Parent(m1, b) != 0 {
      CaseSwap(m, h, x, b, i);
      GroupFrame(m, SubstWrites(m1, Parent(m1, b), b, prev), h, x, InTrie(i), b, x.size[b]);
    } else {
      CaseDrop(m, h, x, b, i);
      GroupFrame(m, m1, h, x, InTrie(i), b, x.size[b]);
    }
    BitsRemoveTrie(fb, lb, x, tidy, b, i, false);
  }

  lemma NodeSlot(m: Mem, t: Trie, b: int, hd: int, sl: int)
    requires AtNode(m, t, b, hd, sl)
    ensures sl > 1 && Rd(m, sl) == hd
  {
  }

  /** The insertion loop of `zend_mm_add_to_free_list`: it ends, after at most `index` turns, at the
      node `prev` where the block belongs, with the empty child slot `p` to fill, or 0 when the
      block joins the ring of `prev`. */
  method InsertPoint(mem: Mem, slot: int, b: int, size: nat, index: nat, ghost t: Trie)
    returns (prev: int, p: int, ghost k: nat)
    requires index < NUM_BUCKETS && Shr(size, index) == 1 && Shape(t, index, 1) && t.Node?
    requires Rep(mem, slot, t) && Disjoint(t) && 0 !in Members(t) && 0 < slot
    requires forall a :: a in Members(t) ==> a > 0
    ensures k <= index && IsHead(t, prev) && Shape(Sub(t, prev), k, Shr(size, k))
    ensures Insert(t, b, size, index) == Replace(t, prev, Insert(Sub(t, prev), b, size, k))
    ensures p == 0 <==> Sub(t, prev).size == size
    ensures p != 0 ==>
              && k > 0 && p == ChildSlot(prev, Shr(size, k - 1) % 2)
              && (if Shr(size, k - 1) % 2 == 0 then Sub(t, prev).left else Sub(t, prev).right).Nil?
  {
    hide Shape, Members, Insert, Shr, Disjoint, Shl, Rep, Replace, Rd, Sub, IsHead;
    StartDescent(mem, slot, t, b, size, index);
    var m := Shl(size, 64 - index);
    k := index;
    prev := Rd(mem, slot);
    NodeFacts(mem, slot, t, prev, size, k);
    p := 0;
    while p == 0 && Tag(mem, prev) != size
      invariant k <= index && IsHead(t, prev) && Shape(Sub(t, prev), k, Shr(size, k))
      invariant Tag(mem, prev) == Sub(t, prev).size && (Tag(mem, prev) != size ==> k > 0)
      invariant Insert(t, b, size, index) == Replace(t, prev, Insert(Sub(t, prev), b, size, k))
      invariant m == Shl(size, 64 - k)
      invariant p != 0 ==> Tag(mem, prev) != size && k > 0 && p == ChildSlot(prev, Shr(size, k - 1) % 2)
      invariant p != 0 ==> (if Shr(size, k - 1) % 2 == 0 then Sub(t, prev).left else Sub(t, prev).right).Nil?
      decreases k, p == 0
    {
      BranchBit(size, k);
      var c := m / HALF_WORD % 2;
      NodeFacts(mem, slot, t, prev, size, k);
      HeadPositive(t, prev);
      var q := ChildSlot(prev, c);
      if Rd(mem, q) == 0 {
        p := q;
      } else {
        InsertDescend(t, prev, Rd(mem, q), b, size, k, c);
        prev := Rd(mem, q);
        k := k - 1;
        NodeFacts(mem, slot, t, prev, size, k);
        ShlNext(size, 64 - k);
        m := 2 * m % WORD;
      }
    }
  }

  lemma HeadPositive(t: Trie, h: int)
    requires IsHead(t, h) && forall a :: a in Members(t) ==> a > 0
    ensures h > 0
  {
    HeadIsMember(t, h);
  }

  function LeafWrites(m: Mem, p: int, b: int): Mem
  {
    Wr(Wr(Wr(Wr(m, p, b), b + 32, p), b + 16, b), b + 24, b)
  }

  function RingWrites(m: Mem, prev: int, next: int, b: int): Mem
  {
    Wr(Wr(Wr(Wr(Wr(m, next + 16, b), prev + 24, b), b + 24, next), b + 16, prev), b + 32, 0)
  }

  lemma RootSlot(m: Mem, slot: int, t: Trie)
    requires Rep(m, slot, t) && 0 !in Members(t)
    ensures Rd(m, slot) == 0 <==> t.Nil?
  {
    if t.Node? { assert t.ring[0] in Elems(t.ring); }
  }

  lemma ClearedBlock(m: Mem, m0: Mem, slot: int, t: Trie, b: int, size: nat)
    requires Rep(m, slot, t) && b !in Members(t) && Apart(Members(t) + {b}) && SlotClear(slot, Members(t) + {b})
    requires m0 == Wr(Wr(m, ChildSlot(b, 0), 0), ChildSlot(b, 1), 0) && Tag(m, b) == size
    ensures Rep(m0, slot, t) && SameBut(m, m0, slot, Members(t) + {b}) && Rd(m0, slot) == Rd(m, slot)
    ensures Tag(m0, b) == size && Child(m0, b, 0) == 0 && Child(m0, b, 1) == 0
  {
    hide Rep, Members;
    assert b in Members(t) + {b};
    forall a | a in Members(t) ensures SameNode(m, m0, a) && SameChildren(m, m0, a) { assert a in Members(t) + {b}; }
    RepFrame(m, m0, slot, t);
  }

  lemma NilInsert(m: Mem, m1: Mem, p: int, t: Trie, b: int, size: nat, index: nat)
    requires t == Nil && m1 == LeafWrites(m, p, b) && (p < b || b + 56 <= p)
    requires Tag(m, b) == size && Child(m, b, 0) == 0 && Child(m, b, 1) == 0
    ensures Shape(t, index, Shr(size, index)) && Rep(m1, p, Insert(t, b, size, index))
    ensures SameBut(m, m1, p, Members(t) + {b}) && Tag(m1, b) == size
  {
    LeafRep(m1, b, size, p);
    assert b in Members(t) + {b};
  }

  lemma StartDescent(m: Mem, slot: int, t: Trie, b: int, size: nat, index: nat)
    requires t.Node? && Rep(m, slot, t) && Shape(t, index, 1) && Shr(size, index) == 1
    ensures |t.ring| > 0 && IsHead(t, t.ring[0]) && Sub(t, t.ring[0]) == t && Rd(m, slot) == t.ring[0]
    ensures Insert(t, b, size, index) == Replace(t, t.ring[0], Insert(t, b, size, index))
  {
    hide Insert;
  }

  lemma NodeFacts(m: Mem, slot: int, t: Trie, h: int, size: nat, k: nat)
    requires Rep(m, slot, t) && IsHead(t, h) && Shape(Sub(t, h), k, Shr(size, k)) && 0 !in Members(t)
    ensures Tag(m, h) == Sub(t, h).size
    ensures Tag(m, h) != size ==> k > 0
    ensures var cur := Sub(t, h);
            && (Child(m, h, 0) == 0 <==> cur.left.Nil?)
            && (cur.left.Node? ==> |cur.left.ring| > 0 && Child(m, h, 0) == cur.left.ring[0])
            && (Child(m, h, 1) == 0 <==> cur.right.Nil?)
            && (cur.right.Node? ==> |cur.right.ring| > 0 && Child(m, h, 1) == cur.right.ring[0])
  {
    SubRep(m, slot, t, h);
    HeadIsMember(t, h);
    var cur := Sub(t, h);
    assert cur.left.Node? ==> cur.left.ring[0] in Elems(cur.left.ring);
    assert cur.right.Node? ==> cur.right.ring[0] in Elems(cur.right.ring);
  }

  lemma LeafInserted(m: Mem, m': Mem, slot: int, t: Trie, h: int, c: int, b: int, size: nat, k: nat)
    requires Rep(m, slot, t) && Disjoint(t) && IsHead(t, h) && b !in Members(t) && 0 !in Members(t)
    requires Apart(Members(t) + {b}) && SlotClear(slot, Members(t) + {b})
    requires Tag(m, b) == size && Child(m, b, 0) == 0 && Child(m, b, 1) == 0
    requires 0 < k && c == Shr(size, k - 1) % 2 && Shape(Sub(t, h), k, Shr(size, k)) && Sub(t, h).size != size
    requires (if c == 0 then Sub(t, h).left else Sub(t, h).right).Nil?
    requires m' == LeafWrites(m, ChildSlot(h, c), b)
    ensures Rep(m', slot, Replace(t, h, Insert(Sub(t, h), b, size, k)))
    ensures SameBut(m, m', slot, Members(t) + {b}) && Tag(m', b) == size
  {
    hide Rep, Members, Insert, Shape, Shr, Disjoint, Sub, Replace, IsHead;
    HeadIsMember(t, h);
    InsertLeafStep(Sub(t, h), b, size, k, c);
    assert h in Members(t) + {b} && b in Members(t) + {b};
    LeafWritten(m, m', h, c, b, size, Members(t) + {b}, slot);
    InsertLeafRep(m, m', slot, t, h, c, b, size, Insert(Sub(t, h), b, size, k));
  }

  lemma InsertLeafStep(cur: Trie, b: int, size: nat, k: nat, c: int)
    requires cur.Node? && 0 < k && c == Shr(size, k - 1) % 2 && Shape(cur, k, Shr(size, k)) && cur.size != size
    requires (if c == 0 then cur.left else cur.right).Nil?
    ensures Insert(cur, b, size, k) == if c == 0 then cur.(left := Node([b], size, Nil, Nil))
                                       else cur.(right := Node([b], size, Nil, Nil))
  {
    ShrStep(size, k);
  }

  lemma LeafWritten(m: Mem, m': Mem, h: int, c: int, b: int, size: nat, s: set<int>, slot: int)
    requires h in s && b in s && h != b && Apart(s) && 0 <= c <= 1
    requires Tag(m, b) == size && Child(m, b, 0) == 0 && Child(m, b, 1) == 0
    requires m' == LeafWrites(m, ChildSlot(h, c), b)
    ensures FreshLeaf(m', b, size, ChildSlot(h, c)) && SameBut(m, m', slot, s)
    ensures forall w :: w != ChildSlot(h, c) && !(b + 16 <= w < b + 56) ==> Rd(m', w) == Rd(m, w)
  {
  }

  lemma RingWritten(m: Mem, m': Mem, h: int, y: int, b: int, s: set<int>, slot: int)
    requires h in s && b in s && y in s && h != b && y != b && Apart(s) && m' == RingWrites(m, h, y, b)
    ensures Tag(m', b) == Tag(m, b) && Parent(m', b) == 0 && SameBut(m, m', slot, s)
    ensures NextF(m', b) == y && PrevF(m', b) == h && NextF(m', h) == b && PrevF(m', y) == b
    ensures forall w :: w != h + 24 && w != y + 16 && !(b + 16 <= w < b + 56) ==> Rd(m', w) == Rd(m, w)
  {
  }

  lemma RingInserted(m: Mem, m': Mem, slot: int, t: Trie, h: int, b: int, size: nat, k: nat)
    requires Rep(m, slot, t) && Disjoint(t) && IsHead(t, h) && b !in Members(t)
    requires Apart(Members(t) + {b}) && SlotClear(slot, Members(t) + {b})
    requires Tag(m, b) == size && Shape(Sub(t, h), k, Shr(size, k)) && Sub(t, h).size == size
    requires m' == RingWrites(m, h, NextF(m, h), b)
    ensures Rep(m', slot, Replace(t, h, Insert(Sub(t, h), b, size, k)))
    ensures SameBut(m, m', slot, Members(t) + {b}) && Tag(m', b) == size
  {
    hide Members, Insert, Shape, Shr, Disjoint, Sub, Replace, IsHead, Ring;
    var cur := Sub(t, h);
    HeadIsMember(t, h);
    SubRep(m, slot, t, h);
    var y := NextF(m, h);
    RingNextIn(m, cur);
    var s := Members(t) + {b};
    RingWritten(m, m', h, y, b, s, slot);
    InsertRingStep(cur, b, size, k);
    hide Rep;
    InsertRingRep(m, m', slot, t, h, b, Insert(cur, b, size, k));
  }

  lemma RingNextIn(m: Mem, cur: Trie)
    requires cur.Node? && Ring(m, cur.ring)
    ensures NextF(m, cur.ring[0]) in Members(cur) && cur.ring[0] in Members(cur)
  {
    RingLinked(m, cur.ring, 0);
    assert NextF(m, cur.ring[0]) in Elems(cur.ring) && cur.ring[0] in Elems(cur.ring);
  }

  lemma InsertRingStep(cur: Trie, b: int, size: nat, k: nat)
    requires cur.Node? && |cur.ring| > 0 && Shape(cur, k, Shr(size, k)) && cur.size == size
    ensures Insert(cur, b, size, k) == Node(InsertAfter(cur.ring, 0, b), cur.size, cur.left, cur.right)
  {
  }

  lemma RemovedSize(x: Index, b: int)
    requires Placed(x) && Shaped(x) && b in x.size
    ensures RemoveFree(x, b).size == x.size - {b}
  {
  }

  lemma AddedSize(m: Mem, h: int, x: Index, b: int, s: nat)
    requires IndexInv(m, h, x) && MIN_BLOCK <= s < WORD
    ensures |x.smalls| == NUM_BUCKETS && |x.tries| == NUM_BUCKETS && Shaped(x)
    ensures AddFree(x, b, s).size == x.size[b := s]
  {
    hide Spread, Linked, Marked, Insert, Log2;
  }

  lemma IndexParts(m: Mem, h: int, x: Index)
    requires IndexInv(m, h, x)
    ensures Placed(x) && Shaped(x) && Spread(h, x.size) && |x.smalls| == NUM_BUCKETS && |x.tries| == NUM_BUCKETS
    ensures x.loc.Keys == x.size.Keys
  {
  }

  lemma AddFreeDefined(m: Mem, h: int, x: Index, b: int, s: int)
    requires IndexInv(m, h, x) && b !in x.size && Spread(h, x.size[b := s])
    ensures |x.smalls| == NUM_BUCKETS && |x.tries| == NUM_BUCKETS && Shaped(x) && b !in x.loc
  {
  }

  /** The sentinel of a bucket points at itself exactly when the bucket is empty. */
  lemma SmallEmpty(m: Mem, h: int, x: Index, i: int)
    requires IndexInv(m, h, x) && 0 <= i < NUM_BUCKETS
    ensures |x.smalls| == NUM_BUCKETS
    ensures PrevF(m, SmallHead(h, i)) == SmallHead(h, i) <==> x.smalls[i] == []
    ensures PrevF(m, SmallHead(h, i)) == NextF(m, SmallHead(h, i)) <==> |x.smalls[i]| <= 1
    ensures x.smalls[i] != [] ==> PrevF(m, SmallHead(h, i)) == x.smalls[i][|x.smalls[i]| - 1]
  {
    SmallMembers(m, h, x, i);
    var q := [SmallHead(h, i)] + x.smalls[i];
    RingLinked(m, q, 0);
    assert Distinct(q);
    hide IndexInv, Ring;
  }

  lemma AddedLoc(m: Mem, h: int, x: Index, b: int, s: nat)
    requires IndexInv(m, h, x) && MIN_BLOCK <= s < WORD
    ensures |x.smalls| == NUM_BUCKETS && |x.tries| == NUM_BUCKETS && Shaped(x)
    ensures b in AddFree(x, b, s).loc && AddFree(x, b, s).loc[b] != InRest
  {
    hide Spread, Linked, Marked, Insert, Log2;
  }

  lemma NewInRest(m: Mem, h: int, x: Index, b: int)
    requires IndexInv(m, h, x) && x.rest != [] && x.rest[|x.rest| - 1] == b
    ensures b in x.loc && x.loc[b] == InRest
  {
    RestMembers(m, h, x);
    assert b in x.rest;
  }
}
