/** The outcome of `zend_mm_search_large_block` over all tries. */
module LargeSearch {
  import opened Words
  import opened Memory
  import opened Trie
  import opened TrieOps
  import opened Index
  import opened Bitmaps
  import opened TrieIndex
  import opened Search
  import opened BestFit

  ghost predicate Filed(x: Index, a: int)
  {
    a in x.size && a in x.loc && x.loc[a].InTrie?
  }

  ghost predicate Fits(x: Index, s: int, a: int)
  {
    Filed(x, a) && x.size[a] >= s
  }

  /** A fit that is exact if an exact one exists, and less than twice any fitting size. */
  ghost predicate GoodFit(x: Index, s: int, b: int)
  {
    && Fits(x, s, b)
    && (forall a :: Fits(x, s, a) && x.size[a] == s ==> x.size[b] == s)
    && (forall a :: Fits(x, s, a) ==> x.size[b] < 2 * x.size[a])
  }

  /** The block `b` is a least one among those that fit. */
  ghost predicate LeastOfFits(x: Index, s: int, b: int)
  {
    b in x.size && forall a :: Fits(x, s, a) ==> x.size[b] <= x.size[a]
  }

  /** When the search finds a least fit: if the request's own trie has a fit, by the condition on its
      search path, and otherwise if the next trie has its smallest size at the root. */
  ghost predicate FindsLeast(x: Index, s: nat)
  {
    |x.tries| == NUM_BUCKETS &&
    var i := Log2(s);
    i < NUM_BUCKETS &&
    if !AllBelow(x.tries[i], s) then PathFindsLeast(x.tries[i], s, i)
    else forall j: nat :: NextTrie(x, i, j) ==> x.tries[j].size == Smallest(x.tries[j])
  }

  /** The first non-empty trie behind number `i`. */
  ghost predicate NextTrie(x: Index, i: nat, j: nat)
  {
    i < j < |x.tries| && x.tries[j].Node? && forall k: nat :: i < k < j ==> x.tries[k].Nil?
  }

  lemma BucketOrder(a: nat, i: nat, b: nat, j: nat)
    requires Shr(a, i) == 1 && Shr(b, j) == 1 && i < j
    ensures a < b
  {
    ShrBounds(a, i);
    ShrBounds(b, j);
    Pow2Monotone(i + 1, j);
  }

  /** A filed block is in the trie of its leading bit. */
  lemma FiledIn(m: Mem, h: int, x: Index, a: int)
    requires IndexInv(m, h, x) && Filed(x, a)
    ensures |x.tries| == NUM_BUCKETS
    ensures var i := x.loc[a].i;
            && 0 <= i < NUM_BUCKETS && a in Members(x.tries[i]) && x.tries[i].Node?
            && 0 < x.size[a] < NONE && Shr(x.size[a], i) == 1 && Tag(m, a) == x.size[a] && HasSize(x.tries[i], x.size[a])
  {
    hide Ring, Members, Shape, SmallsListed, RestListed, Shr, Rep, HasSize;
    var i := x.loc[a].i;
    TrieFacts(m, h, x, i);
    MemberPrefix(m, LargeSlot(h, i), x.tries[i], i, 1, a);
    MemberSize(m, LargeSlot(h, i), x.tries[i], a);
    assert a + x.size[a] <= WORD && a % 8 == 0;
    MemberNode(x.tries[i], a);
  }

  lemma MemberNode(t: Trie, a: int)
    requires a in Members(t)
    ensures t.Node?
  {
  }

  lemma TrieReady(m: Mem, h: int, x: Index, i: int)
    requires IndexInv(m, h, x) && 0 <= i < NUM_BUCKETS
    ensures |x.tries| == NUM_BUCKETS
    ensures var t := x.tries[i];
            Rep(m, LargeSlot(h, i), t) && Disjoint(t) && 0 !in Members(t) && Shape(t, i, 1) && AllBelow(t, NONE)
  {
    hide Ring, Members, Shape, SmallsListed, RestListed, Rep, AllBelow, Disjoint;
    TrieFacts(m, h, x, i);
    var t := x.tries[i];
    forall a | a in Members(t) ensures Tag(m, a) < NONE { assert a + x.size[a] <= WORD && a % 8 == 0; }
    BelowFromMembers(m, LargeSlot(h, i), t, NONE);
  }

  lemma HeadFiled(m: Mem, h: int, x: Index, i: int, p: int)
    requires IndexInv(m, h, x) && 0 <= i < NUM_BUCKETS && |x.tries| == NUM_BUCKETS && IsHead(x.tries[i], p)
    ensures var b := NextF(m, p);
            Filed(x, b) && x.loc[b].i == i && x.size[b] == Tag(m, p) && BehindHead(x.tries[i], b)
  {
    hide Ring, Members, Shape, SmallsListed, RestListed, Rep;
    TrieFacts(m, h, x, i);
    NextOfHead(m, LargeSlot(h, i), x.tries[i], p);
    HeadNext(m, LargeSlot(h, i), x.tries[i], p);
  }

  /** The block behind the head of a ring of the trie. */
  ghost predicate BehindHead(t: Trie, b: int)
  {
    exists p :: IsHead(t, p) && b == After(Sub(t, p).ring, 0)
  }

  lemma HeadNext(m: Mem, slot: int, t: Trie, p: int)
    requires Rep(m, slot, t) && Disjoint(t) && IsHead(t, p)
    ensures BehindHead(t, NextF(m, p))
  {
    hide Members, IsHead;
    SubRep(m, slot, t, p);
    hide Rep, Sub;
    var cur := Sub(t, p);
    assert NextF(m, cur.ring[0]) == After(cur.ring, 0);
  }

  /** The size that the search settles on: in the own trie of the request by its path, otherwise by the walk
      down the next trie. */
  ghost predicate SettlesOn(x: Index, s: nat, r: int)
  {
    |x.tries| == NUM_BUCKETS &&
    var i := Log2(s);
    i < NUM_BUCKETS &&
    if !AllBelow(x.tries[i], s) then r == PathBest(x.tries[i], s, i, Nil)
    else forall j: nat :: NextTrie(x, i, j) ==> r == DescentMin(x.tries[j])
  }

  /** The block that the search returns: of that size, behind the head of its ring. */
  ghost predicate Chosen(x: Index, s: nat, b: int)
  {
    && Filed(x, b) && SettlesOn(x, s, x.size[b])
    && 0 <= x.loc[b].i < |x.tries| && BehindHead(x.tries[x.loc[b].i], b)
  }

  /** The bucket of the request holds a fit: it is the best met on the path. */
  lemma FitInBucket(m: Mem, h: int, x: Index, s: nat, i: nat, p: int)
    requires IndexInv(m, h, x) && i < NUM_BUCKETS && Shr(s, i) == 1 && 0 < s < NONE && |x.tries| == NUM_BUCKETS
    requires Shape(x.tries[i], i, 1) && IsHead(x.tries[i], p) && Tag(m, p) == PathBest(x.tries[i], s, i, Nil)
    requires PathBest(x.tries[i], s, i, Nil) != NONE && AllBelow(x.tries[i], NONE)
    ensures GoodFit(x, s, NextF(m, p))
  {
    hide IndexInv, Members, Shape, Shr, Rep, HasSize, PathBest, AllBelow, IsHead;
    HeadFiled(m, h, x, i, p);
    var b := NextF(m, p);
    FiledIn(m, h, x, b);
    PathBestTop(x.tries[i], s, i);
    forall a | Fits(x, s, a) ensures x.size[a] == s ==> x.size[b] == s ensures x.size[b] < 2 * x.size[a] {
      FiledIn(m, h, x, a);
      var j := x.loc[a].i;
      if j < i { BucketOrder(x.size[a], j, s, i); assert false; }
      if j == i { SameLeadingBit(x.size[b], x.size[a], i); }
      else { BucketOrder(x.size[b], i, x.size[a], j); BucketOrder(s, i, x.size[a], j); }
    }
  }

  /** The least size among all fits is the least fitting size of the request's own trie. */
  lemma LeastInBucket(m: Mem, h: int, x: Index, s: nat, i: nat, p: int)
    requires IndexInv(m, h, x) && i < NUM_BUCKETS && Shr(s, i) == 1 && 0 < s < NONE && |x.tries| == NUM_BUCKETS
    requires Shape(x.tries[i], i, 1) && IsHead(x.tries[i], p) && Tag(m, p) == PathBest(x.tries[i], s, i, Nil)
    requires PathBest(x.tries[i], s, i, Nil) != NONE && AllBelow(x.tries[i], NONE)
    ensures (LeastOfFits(x, s, NextF(m, p)) <==> FindsLeast(x, s)) && Chosen(x, s, NextF(m, p))
  {
    hide IndexInv, Members, Shape, Shr, Rep, HasSize, PathBest, AllBelow, IsHead, Log2, PathFindsLeast, LeastFit,
         BehindHead;
    HeadFiled(m, h, x, i, p);
    var b, t := NextF(m, p), x.tries[i];
    PathBestTop(t, s, i);
    BestFitIff(t, s, i);
    Log2Leading(s, i);
    if LeastOfFits(x, s, b) {
      LeastFitSpec(t, s, x.size[b]);
      var a := LeastMember(m, h, x, s, i, LeastFit(t, s));
    }
    if x.size[b] == LeastFit(t, s) {
      forall a | Fits(x, s, a) ensures x.size[b] <= x.size[a] { LeastBefore(m, h, x, s, i, b, a); }
    }
  }

  /** A fitting size of the trie is the size of a fitting block. */
  lemma LeastMember(m: Mem, h: int, x: Index, s: nat, i: nat, r: int) returns (a: int)
    requires IndexInv(m, h, x) && i < NUM_BUCKETS && |x.tries| == NUM_BUCKETS && HasSize(x.tries[i], r) && r >= s
    ensures Fits(x, s, a) && x.size[a] == r
  {
    hide Ring, Members, Shape, SmallsListed, RestListed, Rep, HasSize;
    TrieFacts(m, h, x, i);
    a := SizeMember(m, LargeSlot(h, i), x.tries[i], r);
  }

  lemma LeastBefore(m: Mem, h: int, x: Index, s: nat, i: nat, b: int, a: int)
    requires IndexInv(m, h, x) && i < NUM_BUCKETS && Shr(s, i) == 1 && 0 < s < NONE && |x.tries| == NUM_BUCKETS
    requires AllBelow(x.tries[i], NONE)
    requires Filed(x, b) && x.loc[b].i == i && x.size[b] == LeastFit(x.tries[i], s) && Fits(x, s, a)
    ensures x.size[b] <= x.size[a]
  {
    hide IndexInv, Members, Shape, Shr, Rep, HasSize, AllBelow, LeastFit;
    FiledIn(m, h, x, a);
    FiledIn(m, h, x, b);
    var j := x.loc[a].i;
    if j < i { BucketOrder(x.size[a], j, s, i); assert false; }
    if j == i { LeastFitSpec(x.tries[i], s, x.size[a]); }
    else { BucketOrder(x.size[b], i, x.size[a], j); }
  }

  /** Without a fit in its own trie, the least fit is the smallest block of the next one. */
  lemma LeastInLater(m: Mem, h: int, x: Index, s: nat, i: nat, j: nat, p: int)
    requires IndexInv(m, h, x) && i < j < NUM_BUCKETS && Shr(s, i) == 1 && 0 < s < NONE && |x.tries| == NUM_BUCKETS
    requires NoFitUpTo(x, s, i, j) && IsHead(x.tries[j], p) && x.tries[j].Node? && Shape(x.tries[j], j, 1)
    requires Tag(m, p) == DescentMin(x.tries[j]) && AllBelow(x.tries[i], s)
    requires forall k: nat :: i < k < j ==> x.tries[k].Nil?
    ensures (LeastOfFits(x, s, NextF(m, p)) <==> FindsLeast(x, s)) && Chosen(x, s, NextF(m, p))
  {
    hide IndexInv, Members, Shape, Shr, Rep, HasSize, IsHead, AllBelow, Log2, Smallest, DescentMin, PathFindsLeast,
         BehindHead;
    HeadFiled(m, h, x, j, p);
    var b, t := NextF(m, p), x.tries[j];
    Log2Leading(s, i);
    SmallestIffRoot(t, j, 1);
    SmallestIsLeast(t, x.size[b]);
    FiledIn(m, h, x, b);
    assert NextTrie(x, i, j);
    forall k: nat | NextTrie(x, i, k) ensures k == j { }
    BigEnough(m, h, x, s, i, j, Smallest(t));
    if LeastOfFits(x, s, b) {
      var a := LeastMember(m, h, x, s, j, Smallest(t));
    }
    if x.size[b] == Smallest(t) {
      forall a | Fits(x, s, a) ensures x.size[b] <= x.size[a] { SmallestBefore(m, h, x, s, i, j, b, a); }
    }
  }

  lemma BigEnough(m: Mem, h: int, x: Index, s: nat, i: nat, j: nat, r: int)
    requires i < j < NUM_BUCKETS && Shr(s, i) == 1 && |x.tries| == NUM_BUCKETS && Shape(x.tries[j], j, 1)
    requires HasSize(x.tries[j], r)
    ensures r > s
  {
    hide Shr, Shape, HasSize;
    SizesPrefixed(x.tries[j], j, 1, r);
    BucketOrder(s, i, r, j);
  }

  lemma SmallestBefore(m: Mem, h: int, x: Index, s: nat, i: nat, j: nat, b: int, a: int)
    requires IndexInv(m, h, x) && i < j < NUM_BUCKETS && Shr(s, i) == 1 && 0 < s < NONE && |x.tries| == NUM_BUCKETS
    requires NoFitUpTo(x, s, i, j) && x.tries[j].Node? && Filed(x, b) && x.loc[b].i == j
    requires x.size[b] == Smallest(x.tries[j]) && Fits(x, s, a)
    ensures x.size[b] <= x.size[a]
  {
    hide IndexInv, Members, Shape, Shr, Rep, HasSize, Smallest;
    FiledIn(m, h, x, a);
    FiledIn(m, h, x, b);
    var e := x.loc[a].i;
    if e < i { BucketOrder(x.size[a], e, s, i); assert false; }
    if e == j { SmallestIsLeast(x.tries[j], x.size[a]); }
    else { BucketOrder(x.size[b], j, x.size[a], e); }
  }

  /** No bucket from `i` up to (not including) `j` holds a fit. */
  ghost predicate NoFitUpTo(x: Index, s: nat, i: nat, j: nat)
  {
    forall a :: Filed(x, a) && i <= x.loc[a].i < j ==> x.size[a] < s
  }

  lemma NoFitInBucket(m: Mem, h: int, x: Index, s: nat, i: nat)
    requires IndexInv(m, h, x) && i < NUM_BUCKETS && |x.tries| == NUM_BUCKETS && AllBelow(x.tries[i], s)
    ensures NoFitUpTo(x, s, i, i + 1)
  {
    hide IndexInv, Members, Shape, Shr, Rep, HasSize, AllBelow;
    forall a | Filed(x, a) && i <= x.loc[a].i < i + 1 ensures x.size[a] < s {
      FiledIn(m, h, x, a);
      BelowToMembers(x.tries[i], s, x.size[a]);
    }
  }

  lemma EmptyBuckets(m: Mem, h: int, x: Index, s: nat, i: nat, j: nat)
    requires IndexInv(m, h, x) && j <= NUM_BUCKETS && |x.tries| == NUM_BUCKETS
    requires forall k: nat :: i <= k < j ==> x.tries[k].Nil?
    ensures NoFitUpTo(x, s, i, j)
  {
    hide IndexInv, Members, Shape, Shr, Rep, HasSize;
    forall a | Filed(x, a) ensures 0 <= x.loc[a].i < NUM_BUCKETS && x.tries[x.loc[a].i].Node? {
      FiledIn(m, h, x, a);
    }
  }

  /** A later bucket, the first non-empty one: any of its blocks fits. */
  lemma FitInLater(m: Mem, h: int, x: Index, s: nat, i: nat, j: nat, p: int)
    requires IndexInv(m, h, x) && i < j < NUM_BUCKETS && Shr(s, i) == 1 && 0 < s < NONE && |x.tries| == NUM_BUCKETS
    requires NoFitUpTo(x, s, i, j) && IsHead(x.tries[j], p)
    ensures GoodFit(x, s, NextF(m, p))
  {
    hide IndexInv, Members, Shape, Shr, Rep, HasSize, IsHead;
    HeadFiled(m, h, x, j, p);
    var b := NextF(m, p);
    FiledIn(m, h, x, b);
    BucketOrder(s, i, x.size[b], j);
    forall a | Fits(x, s, a) ensures x.size[a] == s ==> x.size[b] == s ensures x.size[b] < 2 * x.size[a] {
      FiledIn(m, h, x, a);
      var e := x.loc[a].i;
      if e < i { BucketOrder(x.size[a], e, s, i); assert false; }
      if e == j { SameLeadingBit(x.size[b], x.size[a], j); }
      else { BucketOrder(x.size[b], j, x.size[a], e); }
      BucketOrder(s, i, x.size[a], e);
    }
  }

  lemma NoFitAtAll(m: Mem, h: int, x: Index, s: nat, i: nat)
    requires IndexInv(m, h, x) && i < NUM_BUCKETS && Shr(s, i) == 1 && NoFitUpTo(x, s, i, NUM_BUCKETS)
    ensures forall a :: !Fits(x, s, a)
  {
    hide IndexInv, Members, Shape, Shr, Rep, HasSize;
    forall a | Filed(x, a) ensures x.size[a] < s {
      FiledIn(m, h, x, a);
      if x.loc[a].i < i { BucketOrder(x.size[a], x.loc[a].i, s, i); }
    }
  }

  /** `zend_mm_search_large_block`. */
  method SearchLargeBlock(mem: Mem, base: int, largeBitmap: nat, trueSize: nat, ghost x: Index, ghost fb: nat, ghost tidy: bool)
    returns (b: int)
    requires IndexInv(mem, base, x) && BitsOk(fb, largeBitmap, x, tidy)
    requires 0 < trueSize < NONE
    ensures b == 0 <==> forall a :: !Fits(x, trueSize, a)
    ensures b != 0 ==> GoodFit(x, trueSize, b) && (LeastOfFits(x, trueSize, b) <==> FindsLeast(x, trueSize))
    ensures b != 0 ==> Chosen(x, trueSize, b)
  {
    hide Chosen, LeastOfFits, FindsLeast, NextTrie, IndexInv, BitsOk, Members, Shape, Shr, Rep, HasSize, AllBelow, PathBest,
         Disjoint, Bit, IsHead, Fits, NoFitUpTo, DescentMin;
    var index := HighBit(trueSize);
    ghost var first := index;
    var bitmap := Shr(largeBitmap, index);
    BitmapTries(fb, largeBitmap, x, tidy, index);
    if bitmap == 0 {
      EmptyBuckets(mem, base, x, trueSize, index, NUM_BUCKETS);
      NoFitAtAll(mem, base, x, trueSize, index);
      return 0;
    }
    if bitmap % 2 != 0 {
      TrieReady(mem, base, x, index);
      PathBestTop(x.tries[index], trueSize, index);
      var best := SearchTrie(mem, LargeSlot(base, index), trueSize, index, x.tries[index]);
      if best != 0 {
        FitInBucket(mem, base, x, trueSize, index, best);
        LeastInBucket(mem, base, x, trueSize, index, best);
        FitNotNull(mem, base, x, trueSize, NextF(mem, best));
        return NextF(mem, best);
      }
      NoFitInBucket(mem, base, x, trueSize, index);
      ShrShr(largeBitmap, index, 1);
      ShrOne(bitmap);
      bitmap := bitmap / 2;
      index := index + 1;
      BitmapTries(fb, largeBitmap, x, tidy, index);
      if bitmap == 0 {
        EmptyBuckets(mem, base, x, trueSize, index, NUM_BUCKETS);
        NoFitJoin(x, trueSize, first, index, NUM_BUCKETS);
        NoFitAtAll(mem, base, x, trueSize, first);
        return 0;
      }
    } else {
      NoFitEmpty(x, trueSize, index);
      EmptyBelow(x.tries[index], trueSize);
    }
    var low := LowBit(bitmap);
    LowestTrie(fb, largeBitmap, x, tidy, index, low);
    EmptyBuckets(mem, base, x, trueSize, index, index + low);
    NoFitJoin(x, trueSize, first, index, index + low);
    TrieReady(mem, base, x, index + low);
    var best := WalkSmallest(mem, LargeSlot(base, index + low), x.tries[index + low]);
    FitInLater(mem, base, x, trueSize, first, index + low, best);
    LeastInLater(mem, base, x, trueSize, first, index + low, best);
    FitNotNull(mem, base, x, trueSize, NextF(mem, best));
    return NextF(mem, best);
  }

  lemma ShrOne(n: nat) ensures Shr(n, 1) == n / 2 { ShrNone(n / 2); }

  lemma FitNotNull(m: Mem, h: int, x: Index, s: nat, b: int)
    requires IndexInv(m, h, x) && GoodFit(x, s, b)
    ensures b > 0 && Fits(x, s, b)
  {
    hide Ring, Members, Shape, Rep;
  }

  lemma EmptyBelow(t: Trie, s: int)
    requires t.Nil?
    ensures AllBelow(t, s)
  {
  }

  lemma NoFitEmpty(x: Index, s: nat, i: nat)
    ensures NoFitUpTo(x, s, i, i)
  {
  }

  lemma NoFitJoin(x: Index, s: nat, i: nat, j: nat, k: nat)
    requires NoFitUpTo(x, s, i, j) && NoFitUpTo(x, s, j, k)
    ensures NoFitUpTo(x, s, i, k)
  {
  }

  /** A shifted bitmap against the tries from bucket `i` on. */
  lemma BitmapTries(fb: nat, lb: nat, x: Index, tidy: bool, i: nat)
    requires BitsOk(fb, lb, x, tidy) && i <= NUM_BUCKETS
    ensures |x.tries| == NUM_BUCKETS
    ensures Shr(lb, i) == 0 <==> forall k: nat :: i <= k < NUM_BUCKETS ==> x.tries[k].Nil?
    ensures i < NUM_BUCKETS ==> (Shr(lb, i) % 2 != 0 <==> x.tries[i].Node?)
  {
    var bm := Shr(lb, i);
    if i < NUM_BUCKETS { assert Bit(lb, i) <==> x.tries[i].Node?; }
    hide Shr;
    if bm == 0 {
      forall k: nat | i <= k < NUM_BUCKETS ensures x.tries[k].Nil? {
        ShrShr(lb, i, k - i);
        ShrZero(k - i);
        assert !Bit(lb, k);
      }
    } else {
      Pow2At64();
      ShrBounds(lb, i);
      ShiftedBound(lb, i);
      var e := NonZeroHasBit(bm, 64 - i);
      ShrShr(lb, i, e);
      assert Bit(lb, i + e);
      assert x.tries[i + e].Node?;
    }
  }

  lemma ShiftedBound(n: nat, i: nat)
    requires n < WORD && i <= 64 && Shr(n, i) != 0
    ensures Shr(n, i) < Pow2(64 - i)
  {
    Pow2At64();
    ShrZeroIsSmall(n, 64);
    ShrShr(n, i, 64 - i);
    ShrZeroIsSmall(Shr(n, i), 64 - i);
  }

  lemma LowestTrie(fb: nat, lb: nat, x: Index, tidy: bool, i: nat, low: nat)
    requires BitsOk(fb, lb, x, tidy) && i <= NUM_BUCKETS
    requires Bit(Shr(lb, i), low) && forall j: nat | j < low :: !Bit(Shr(lb, i), j)
    ensures i + low < NUM_BUCKETS && |x.tries| == NUM_BUCKETS && x.tries[i + low].Node?
    ensures forall k: nat :: i <= k < i + low ==> x.tries[k].Nil?
  {
    hide Shr, Bit;
    ShiftedBit(lb, i, low);
    if i + low >= NUM_BUCKETS { BitOut(lb, i + low); assert false; }
    forall k: nat | i <= k < i + low ensures x.tries[k].Nil? {
      ShiftedBit(lb, i, k - i);
    }
  }

  lemma BitOut(n: nat, j: nat)
    requires n < WORD && j >= 64
    ensures !Bit(n, j)
  {
    ShrOut(n, j);
  }
}
