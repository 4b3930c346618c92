/** What `zend_mm_search_large_block` finds in one trie, as values. */
module Search {
  import opened Words
  import opened Memory
  import opened Trie
  import opened TrieOps

  const NONE: int := WORD - 1     // best_size = (size_t)-1

  function Min(a: int, b: int): int { if b < a then b else a }

  /** The smallest size met by the walk `p = p->child[p->child[0] != NULL]`: it moves to child 1
      when child 0 exists and otherwise stops. */
  ghost function DescentMin(t: Trie): int
    requires t.Node?
  {
    if t.left.Node? && t.right.Node? then Min(t.size, DescentMin(t.right)) else t.size
  }

  /** The best size met on the search path for `s` with `k` bits left, `rst` being the last right
      subtree passed by. */
  ghost function PathBest(t: Trie, s: nat, k: nat, rst: Trie): int
    decreases t
  {
    if t.Nil? then if rst.Node? then DescentMin(rst) else NONE
    else
      var own := if t.size >= s then t.size else NONE;
      if k == 0 then own
      else if Shr(s, k - 1) % 2 == 0 then
        Min(own, PathBest(t.left, s, k - 1, if t.right.Node? then t.right else rst))
      else Min(own, PathBest(t.right, s, k - 1, rst))
  }

  ghost predicate HasSize(t: Trie, s: int)
  {
    t.Node? && (t.size == s || HasSize(t.left, s) || HasSize(t.right, s))
  }

  ghost predicate AllAbove(t: Trie, s: int)
  {
    t.Node? ==> t.size > s && AllAbove(t.left, s) && AllAbove(t.right, s)
  }

  ghost predicate AllBelow(t: Trie, s: int)
  {
    t.Node? ==> t.size < s && AllBelow(t.left, s) && AllBelow(t.right, s)
  }

  /** The least size in a non-empty trie. */
  ghost function Smallest(t: Trie): int
    requires t.Node?
  {
    var a := if t.left.Node? then Min(t.size, Smallest(t.left)) else t.size;
    if t.right.Node? then Min(a, Smallest(t.right)) else a
  }

  lemma {:induction false} SmallestIsLeast(t: Trie, s: int)
    requires t.Node?
    ensures HasSize(t, s) ==> Smallest(t) <= s
    ensures HasSize(t, Smallest(t))
  {
    HasChild(t, s);
    NilHas(s);
    assert Smallest(t) <= t.size;
    if t.left.Node? { SmallestIsLeast(t.left, s); assert Smallest(t) <= Smallest(t.left); }
    if t.right.Node? { SmallestIsLeast(t.right, s); assert Smallest(t) <= Smallest(t.right); }
  }

  /** Sizes below a node with prefix `p` all have that prefix. */
  lemma {:induction false} SizesPrefixed(t: Trie, k: nat, p: nat, s: int)
    requires Shape(t, k, p) && HasSize(t, s)
    ensures s >= 0 && Shr(s, k) == p
    decreases t
  {
    if t.size != s {
      if HasSize(t.left, s) { SizesPrefixed(t.left, k - 1, 2 * p, s); }
      else { SizesPrefixed(t.right, k - 1, 2 * p + 1, s); }
      ShrStep(s, k);
    }
  }

  /** Two sizes with the same leading bit differ by less than a factor of two. */
  lemma SameLeadingBit(a: nat, b: nat, i: nat)
    requires Shr(a, i) == 1 && Shr(b, i) == 1
    ensures a < 2 * b
  {
    ShrBounds(a, i);
    ShrBounds(b, i);
  }

  lemma {:induction false} ShapeAbove(t: Trie, k: nat, p: nat, s: nat)
    requires Shape(t, k, p) && Shr(s, k) < p
    ensures AllAbove(t, s)
    decreases t
  {
    if t.Node? {
      if t.size <= s { ShrMonotone(t.size, s, k); }
      if k > 0 {
        ShrStep(s, k);
        ShapeAbove(t.left, k - 1, 2 * p, s);
        ShapeAbove(t.right, k - 1, 2 * p + 1, s);
      }
    }
  }

  lemma {:induction false} ShapeBelow(t: Trie, k: nat, p: nat, s: nat)
    requires Shape(t, k, p) && Shr(s, k) > p
    ensures AllBelow(t, s)
    decreases t
  {
    if t.Node? {
      if t.size >= s { ShrMonotone(s, t.size, k); }
      if k > 0 {
        ShrStep(s, k);
        ShapeBelow(t.left, k - 1, 2 * p, s);
        ShapeBelow(t.right, k - 1, 2 * p + 1, s);
      }
    }
  }

  lemma {:induction false} DescentFinds(t: Trie, s: int)
    requires t.Node?
    ensures HasSize(t, DescentMin(t))
    ensures AllAbove(t, s) ==> DescentMin(t) > s
    ensures AllBelow(t, s) ==> DescentMin(t) < s
  {
    if t.left.Node? && t.right.Node? { DescentFinds(t.right, s); }
  }

  /** The walk that looks for the smallest block of a trie finds it exactly when that block is
      already at the root: whenever a smaller one exists below, the walk misses the smallest. */
  lemma {:induction false} SmallestIffRoot(t: Trie, k: nat, p: nat)
    requires t.Node? && Shape(t, k, p)
    ensures DescentMin(t) == Smallest(t) <==> t.size == Smallest(t)
  {
    SmallestIsLeast(t, t.size);
    SmallestIsLeast(t, DescentMin(t));
    DescentFinds(t, 0);
    if t.left.Node? && t.right.Node? && t.size != Smallest(t) {
      var w := Smallest(t.left);
      SmallestIsLeast(t.left, w);
      SizesPrefixed(t.left, k - 1, 2 * p, w);
      ShapeAbove(t.right, k - 1, 2 * p + 1, w);
      DescentFinds(t.right, w);
      SmallestIsLeast(t, w);
      SmallestIsLeast(t.right, Smallest(t.right));
      AboveSmallest(t.right, w);
    }
  }

  lemma {:induction false} AboveSmallest(t: Trie, s: int)
    requires t.Node? && AllAbove(t, s)
    ensures Smallest(t) > s
  {
    if t.left.Node? { AboveSmallest(t.left, s); }
    if t.right.Node? { AboveSmallest(t.right, s); }
  }

  /** A trie in which the walk misses the smallest block: sizes 1600, 1104 and 1704. */
  lemma WalkMissesSmallest()
    ensures exists t: Trie :: t.Node? && Shape(t, 10, 1) && DescentMin(t) != Smallest(t)
  {
    var t := Node([8], 1600, Node([4096], 1104, Nil, Nil), Node([8192], 1704, Nil, Nil));
    assert Shr(1600, 10) == 1;
    assert Shr(1104, 9) == 2;
    assert Shr(1704, 9) == 3;
    assert DescentMin(t) == 1600 && Smallest(t) == 1104;
    assert Shape(t, 10, 1);
  }

  /** What the path search promises: nothing exactly when nothing fits, the exact size when it is
      there, and otherwise the size of a fitting block. */
  lemma {:induction false} PathBestSpec(t: Trie, s: nat, k: nat, rst: Trie)
    requires Shape(t, k, Shr(s, k)) && AllBelow(t, NONE) && AllBelow(rst, NONE) && AllAbove(rst, s) && s < NONE
    ensures var r := PathBest(t, s, k, rst);
            && (HasSize(t, s) ==> r == s)
            && (r == NONE <==> rst.Nil? && AllBelow(t, s))
            && (r != NONE ==> s <= r < NONE && (HasSize(t, r) || HasSize(rst, r)))
            && r <= NONE
    decreases t
  {
    hide Shr, Members, Elems, HasSize, DescentMin;
    if t.Nil? {
      assert !HasSize(t, s) by { NilHas(s); }
      if rst.Node? { DescentFinds(rst, s); DescentFinds(rst, NONE); }
    } else if k == 0 {
      ShrNone(s);
      ShrNone(t.size);
      HasChild(t, s);
    } else {
      ShrStep(s, k);
      var p := Shr(s, k);
      var bit := Shr(s, k - 1) % 2;
      var n := if bit == 0 then t.left else t.right;
      var rst' := if bit == 0 && t.right.Node? then t.right else rst;
      if bit == 0 { ShapeAbove(t.right, k - 1, 2 * p + 1, s); NoSizeAbove(t.right, s); }
      else { ShapeBelow(t.left, k - 1, 2 * p, s); NoSizeBelow(t.left, s); }
      PathBestSpec(n, s, k - 1, rst');
      var r := PathBest(n, s, k - 1, rst');
      HasChild(t, s);
      HasChild(t, r);
      HasChild(t, t.size);
    }
  }

  lemma NilHas(s: int) ensures !HasSize(Nil, s) { }

  lemma HasChild(t: Trie, r: int)
    requires t.Node?
    ensures HasSize(t, r) <==> t.size == r || HasSize(t.left, r) || HasSize(t.right, r)
  {
  }

  lemma {:induction false} NoSizeAbove(t: Trie, s: int)
    requires AllAbove(t, s)
    ensures !HasSize(t, s)
  {
    if t.Node? { NoSizeAbove(t.left, s); NoSizeAbove(t.right, s); }
  }

  lemma {:induction false} NoSizeBelow(t: Trie, s: int)
    requires AllBelow(t, s)
    ensures !HasSize(t, s)
  {
    if t.Node? { NoSizeBelow(t.left, s); NoSizeBelow(t.right, s); }
  }

  /** Sizes as values and sizes in memory. */
  lemma {:induction false} MemberSize(m: Mem, slot: int, t: Trie, a: int)
    requires Rep(m, slot, t) && a in Members(t)
    ensures HasSize(t, Tag(m, a))
    decreases t
  {
    if a !in t.ring {
      if a in Members(t.left) { MemberSize(m, ChildSlot(t.ring[0], 0), t.left, a); }
      else { MemberSize(m, ChildSlot(t.ring[0], 1), t.right, a); }
    }
  }

  lemma {:induction false} SizeMember(m: Mem, slot: int, t: Trie, r: int) returns (a: int)
    requires Rep(m, slot, t) && HasSize(t, r)
    ensures a in Members(t) && Tag(m, a) == r
    decreases t
  {
    if t.size == r {
      a := t.ring[0];
      assert a in Elems(t.ring);
    } else if HasSize(t.left, r) {
      a := SizeMember(m, ChildSlot(t.ring[0], 0), t.left, r);
    } else {
      a := SizeMember(m, ChildSlot(t.ring[0], 1), t.right, r);
    }
  }

  lemma {:induction false} BelowFromMembers(m: Mem, slot: int, t: Trie, s: int)
    requires Rep(m, slot, t) && forall a :: a in Members(t) ==> Tag(m, a) < s
    ensures AllBelow(t, s)
    decreases t
  {
    if t.Node? {
      assert t.ring[0] in Elems(t.ring);
      BelowFromMembers(m, ChildSlot(t.ring[0], 0), t.left, s);
      BelowFromMembers(m, ChildSlot(t.ring[0], 1), t.right, s);
    }
  }

  lemma {:induction false} BelowToMembers(t: Trie, s: int, r: int)
    requires AllBelow(t, s) && HasSize(t, r)
    ensures r < s
  {
    if t.size != r {
      if HasSize(t.left, r) { BelowToMembers(t.left, s, r); } else { BelowToMembers(t.right, s, r); }
    }
  }

  // ---------- the search loops ----------

  /** What the loops read at head `p`. */
  lemma AtHead(m: Mem, slot: int, t: Trie, p: int)
    requires Rep(m, slot, t) && Disjoint(t) && IsHead(t, p) && 0 !in Members(t)
    ensures var cur := Sub(t, p);
            && Tag(m, p) == cur.size && HasSize(t, Tag(m, p)) && p != 0
            && (Child(m, p, 0) == 0 <==> cur.left.Nil?) && (Child(m, p, 1) == 0 <==> cur.right.Nil?)
            && (cur.left.Node? ==> IsHead(t, Child(m, p, 0)) && Sub(t, Child(m, p, 0)) == cur.left)
            && (cur.right.Node? ==> IsHead(t, Child(m, p, 1)) && Sub(t, Child(m, p, 1)) == cur.right)
  {
    var cur := Sub(t, p);
    SubRep(m, slot, t, p);
    HeadIsMember(t, p);
    MemberSize(m, slot, t, p);
    assert 0 !in Members(cur);
    LoneChildren(m, SlotOf(t, slot, p), cur);
    NextOfHead(m, slot, t, p);
    hide Rep, Disjoint, Members, HasSize;
    if cur.left.Node? { ChildTurn(m, slot, t, p, cur, 0); }
    if cur.right.Node? { ChildTurn(m, slot, t, p, cur, 1); }
  }

  ghost function At(t: Trie, p: int): Trie
  {
    if IsHead(t, p) then Sub(t, p) else Nil
  }

  /** The loop that looks for the smallest large block, over a whole trie. */
  method WalkSmallest(m: Mem, slot: int, ghost t: Trie) returns (best: int)
    requires Rep(m, slot, t) && t.Node? && Disjoint(t) && 0 !in Members(t)
    ensures IsHead(t, best) && Tag(m, best) == DescentMin(t)
  {
    hide Disjoint, Members, IsHead, Sub, HasSize;
    best := Rd(m, slot);
    RootHead(m, slot, t);
    hide Rep;
    AtHead(m, slot, t, best);
    var p := Child(m, best, if Child(m, best, 0) != 0 then 1 else 0);
    ghost var cur := if t.left.Node? then t.right else Nil;
    while p != 0
      invariant IsHead(t, best) && (p == 0 <==> cur.Nil?)
      invariant cur.Node? ==> IsHead(t, p) && Sub(t, p) == cur
      invariant DescentMin(t) == Min(Tag(m, best), if cur.Node? then DescentMin(cur) else Tag(m, best))
      decreases cur
    {
      AtHead(m, slot, t, p);
      if Tag(m, p) < Tag(m, best) {
        best := p;
      }
      p := Child(m, p, if Child(m, p, 0) != 0 then 1 else 0);
      cur := if cur.left.Node? then cur.right else Nil;
    }
  }

  lemma RootHead(m: Mem, slot: int, t: Trie)
    requires Rep(m, slot, t) && t.Node?
    ensures IsHead(t, Rd(m, slot)) && Sub(t, Rd(m, slot)) == t
  {
  }

  /** The search of the bucket of `s`: along the bits of `s`, then down the last right subtree. */
  method SearchTrie(m: Mem, slot: int, s: nat, index: nat, ghost t: Trie) returns (best: int)
    requires Rep(m, slot, t) && t.Node? && Disjoint(t) && 0 !in Members(t)
    requires index < NUM_BUCKETS && Shr(s, index) == 1 && Shape(t, index, 1) && AllBelow(t, NONE) && s < NONE
    ensures best == 0 <==> PathBest(t, s, index, Nil) == NONE
    ensures best != 0 ==> IsHead(t, best) && Tag(m, best) == PathBest(t, s, index, Nil)
  {
    hide Disjoint, Members, IsHead, Sub, HasSize, Shape, Shr, Shl, AllBelow, Rep, PathBest, DescentMin;
    PathBestTop(t, s, index);
    var exact, bestSize, rst;
    exact, best, bestSize, rst := SearchPath(m, slot, s, index, t);
    if exact { return; }
    if rst != 0 {
      exact, best := SearchRest(m, slot, s, t, rst, best, bestSize);
      AtHead(m, slot, t, best);
      BelowToMembers(t, NONE, Tag(m, best));
    }
  }

  lemma PathBestTop(t: Trie, s: nat, index: nat)
    requires Shr(s, index) == 1 && Shape(t, index, 1) && AllBelow(t, NONE) && s < NONE
    ensures HasSize(t, s) ==> PathBest(t, s, index, Nil) == s
    ensures var r := PathBest(t, s, index, Nil);
            && (r == NONE <==> AllBelow(t, s)) && (r != NONE ==> s <= r < NONE && HasSize(t, r)) && r <= NONE
  {
    NilHas(PathBest(t, s, index, Nil));
    PathBestSpec(t, s, index, Nil);
  }

  /** What is left of the search result once the path loop stops. */
  ghost function RestBest(bestSize: int, rst: Trie): int
  {
    if rst.Node? then Min(bestSize, DescentMin(rst)) else bestSize
  }

  method SearchPath(m: Mem, slot: int, s: nat, index: nat, ghost t: Trie)
    returns (exact: bool, best: int, bestSize: int, rst: int)
    requires Rep(m, slot, t) && t.Node? && Disjoint(t) && 0 !in Members(t)
    requires index < NUM_BUCKETS && Shr(s, index) == 1 && Shape(t, index, 1) && AllBelow(t, NONE) && s < NONE
    ensures exact ==> best != 0 && IsHead(t, best) && Tag(m, best) == s && HasSize(t, s)
    ensures !exact ==>
              && (best == 0 <==> bestSize == NONE) && (best != 0 ==> IsHead(t, best) && Tag(m, best) == bestSize)
              && bestSize <= NONE && (rst != 0 ==> IsHead(t, rst) && AllAbove(Sub(t, rst), s))
              && PathBest(t, s, index, Nil) == RestBest(bestSize, if rst == 0 then Nil else At(t, rst))
  {
    hide Disjoint, Members, IsHead, Sub, HasSize, Shape, Shr, Shl, AllBelow, Rep, PathBest, DescentMin;
    exact, best, bestSize, rst := false, 0, NONE, 0;
    var p := Rd(m, slot);
    RootHead(m, slot, t);
    var b := Shl(s, 64 - index);
    ghost var k: nat := index;
    ghost var cur := t;
    AtHead(m, slot, t, p);
    PathBestTop(t, s, index);
    while p != 0
      invariant k <= index && (p != 0 <==> cur.Node?) && (p != 0 ==> IsHead(t, p) && Sub(t, p) == cur)
      invariant p != 0 ==> Shape(cur, k, Shr(s, k)) && b == Shl(s, 64 - k)
      invariant (best == 0 <==> bestSize == NONE) && (best != 0 ==> IsHead(t, best) && Tag(m, best) == bestSize)
      invariant rst != 0 ==> IsHead(t, rst) && AllAbove(Sub(t, rst), s)
      invariant bestSize <= NONE
      invariant PathBest(t, s, index, Nil) == Min(bestSize, PathBest(cur, s, k, if rst == 0 then Nil else At(t, rst)))
      decreases cur
    {
      AtHead(m, slot, t, p);
      var size := Tag(m, p);
      BelowToMembers(t, NONE, size);
      if size == s {
        return true, p, bestSize, rst;
      }
      BitsLeft(cur, s, k);
      PathStep(cur, s, k, if rst == 0 then Nil else At(t, rst));
      if size >= s && size < bestSize {
        bestSize, best := size, p;
      }
      BranchBit(s, k);
      if b / HALF_WORD % 2 == 0 {
        if Child(m, p, 1) != 0 {
          rst := Child(m, p, 1);
        }
        p, cur := Child(m, p, 0), cur.left;
      } else {
        p, cur := Child(m, p, 1), cur.right;
      }
      k := k - 1;
      ShlNext(s, 64 - k);
      b := 2 * b % WORD;
    }
    PathEnd(s, k, if rst == 0 then Nil else At(t, rst));
  }

  /** A node of another size still has a bit to branch on, and its children split on it. */
  lemma BitsLeft(cur: Trie, s: nat, k: nat)
    requires cur.Node? && Shape(cur, k, Shr(s, k)) && cur.size != s
    ensures k > 0
    ensures Shape(if Shr(s, k - 1) % 2 == 0 then cur.left else cur.right, k - 1, Shr(s, k - 1))
    ensures Shr(s, k - 1) % 2 == 0 ==> AllAbove(cur.right, s)
  {
    ShrNone(s);
    ShrNone(cur.size);
    if k > 0 {
      ShrStep(s, k);
      if Shr(s, k - 1) % 2 == 0 { ShapeAbove(cur.right, k - 1, 2 * Shr(s, k) + 1, s); }
    }
  }

  lemma PathStep(cur: Trie, s: nat, k: nat, rst: Trie)
    requires cur.Node? && k > 0
    ensures PathBest(cur, s, k, rst) ==
            Min(if cur.size >= s then cur.size else NONE,
                if Shr(s, k - 1) % 2 == 0 then PathBest(cur.left, s, k - 1, if cur.right.Node? then cur.right else rst)
                else PathBest(cur.right, s, k - 1, rst))
  {
  }

  lemma PathEnd(s: nat, k: nat, rst: Trie)
    ensures PathBest(Nil, s, k, rst) == if rst.Node? then DescentMin(rst) else NONE
  {
  }

  method SearchRest(m: Mem, slot: int, s: nat, ghost t: Trie, rst: int, best0: int, bestSize0: int)
    returns (exact: bool, best: int)
    requires Rep(m, slot, t) && Disjoint(t) && 0 !in Members(t) && AllBelow(t, NONE)
    requires rst != 0 && IsHead(t, rst) && bestSize0 <= NONE
    requires (best0 == 0 <==> bestSize0 == NONE) && (best0 != 0 ==> IsHead(t, best0) && Tag(m, best0) == bestSize0)
    requires AllAbove(Sub(t, rst), s)
    ensures best != 0 && IsHead(t, best)
    ensures exact ==> Tag(m, best) == s && HasSize(t, s)
    ensures !exact ==> Tag(m, best) == RestBest(bestSize0, Sub(t, rst))
  {
    hide Disjoint, Members, IsHead, Sub, HasSize, AllBelow, Rep;
    exact, best := false, best0;
    var bestSize, p := bestSize0, rst;
    ghost var cur := Sub(t, rst);
    while p != 0
      invariant (p != 0 <==> cur.Node?) && (p != 0 ==> IsHead(t, p) && Sub(t, p) == cur && AllAbove(cur, s))
      invariant (best == 0 <==> bestSize == NONE) && (best != 0 ==> IsHead(t, best) && Tag(m, best) == bestSize)
      invariant bestSize <= NONE && (p == 0 ==> best != 0)
      invariant RestBest(bestSize0, Sub(t, rst)) == RestBest(bestSize, cur)
      decreases cur
    {
      AtHead(m, slot, t, p);
      var size := Tag(m, p);
      BelowToMembers(t, NONE, size);
      if size == s {
        return true, p;
      } else if size > s && size < bestSize {
        bestSize, best := size, p;
      }
      p := Child(m, p, if Child(m, p, 0) != 0 then 1 else 0);
      cur := if cur.left.Node? then cur.right else Nil;
    }
  }
}
