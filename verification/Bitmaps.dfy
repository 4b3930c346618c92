/** The two bitmaps and the rest counter against the lists they summarise. */
module Bitmaps {
  import opened Words
  import opened Memory
  import opened Trie
  import opened TrieOps
  import opened Index

  const MAX_REST: int := 16

  /** Every small bit tells exactly whether its bucket holds a block. */
  ghost predicate ExactBits(fb: nat, x: Index)
  {
    |x.smalls| == NUM_BUCKETS && forall i: nat :: i < NUM_BUCKETS ==> (Bit(fb, i) <==> x.smalls[i] != [])
  }

  /** Taking `b` out of the index loses the bit of a bucket: the block is small and alone on the rest
      list, and the bucket of its size holds exactly one block. */
  ghost predicate LosesBit(x: Index, b: int)
  {
    && b in x.size && MIN_BLOCK <= x.size[b] < MAX_SMALL && x.rest == [b]
    && BucketIndex(x.size[b]) < |x.smalls| && |x.smalls[BucketIndex(x.size[b])]| == 1
  }

  /** Large bits tell exactly which tries are non-empty. Small bits promise a non-empty bucket, and
      are exact as long as none has been lost (`tidy`). */
  ghost predicate BitsOk(fb: nat, lb: nat, x: Index, tidy: bool)
  {
    && |x.smalls| == NUM_BUCKETS && |x.tries| == NUM_BUCKETS && fb < WORD && lb < WORD
    && (forall i: nat :: i < NUM_BUCKETS ==> (Bit(lb, i) <==> x.tries[i].Node?))
    && (forall i: nat :: i < NUM_BUCKETS && Bit(fb, i) ==> x.smalls[i] != [])
    && (tidy ==> ExactBits(fb, x))
  }

  ghost function RestLarge(x: Index): set<int>
  {
    set a | a in x.loc && x.loc[a] == InRest && a in x.size && x.size[a] >= MAX_SMALL
  }

  ghost predicate CountOk(rc: int, x: Index)
  {
    rc == |RestLarge(x)| && rc <= MAX_REST
  }

  lemma WordBound(n: nat, i: nat)
    requires n < WORD && i < 64
    ensures SetBit(n, i) < WORD && ClearBit(n, i) < WORD
  {
    Pow2At64();
    SetBitBound(n, i, 64);
    ClearBitBound(n, i);
  }

  lemma BitsAddSmall(fb: nat, lb: nat, x: Index, tidy: bool, b: int, s: int)
    requires BitsOk(fb, lb, x, tidy) && Placed(x) && b !in x.size && MIN_BLOCK <= s < MAX_SMALL && s % 8 == 0
    ensures var i := BucketIndex(s);
            BitsOk(if x.smalls[i] == [] then SetBit(fb, i) else fb, lb, AddSmall(x, b, s), tidy)
  {
    var i := BucketIndex(s);
    WordBound(fb, i);
    hide Bit, SetBit, Members;
    forall j: nat ensures Bit(SetBit(fb, i), j) <==> j == i || Bit(fb, j) { SetBitBits(fb, i, j); }
  }

  lemma BitsAddTrie(fb: nat, lb: nat, x: Index, tidy: bool, b: int, s: nat)
    requires BitsOk(fb, lb, x, tidy) && Placed(x) && Shaped(x) && b !in x.size && MAX_SMALL <= s < WORD
    requires Log2(s) < NUM_BUCKETS && Shr(s, Log2(s)) == 1
    ensures var i := Log2(s);
            BitsOk(fb, if x.tries[i] == Nil then SetBit(lb, i) else lb, AddTrie(x, b, s), tidy)
  {
    var i := Log2(s);
    WordBound(lb, i);
    assert Insert(x.tries[i], b, s, i).Node?;
    hide Bit, SetBit, Members, Insert, Log2, Shr, Shape;
    forall j: nat ensures Bit(SetBit(lb, i), j) <==> j == i || Bit(lb, j) { SetBitBits(lb, i, j); }
  }

  lemma BitsAddRest(fb: nat, lb: nat, x: Index, tidy: bool, b: int, s: int)
    requires BitsOk(fb, lb, x, tidy) && Placed(x) && b !in x.size
    ensures BitsOk(fb, lb, AddRest(x, b, s), tidy)
  {
    hide Bit, Members;
  }

  lemma BitsRemoveSmall(fb: nat, lb: nat, x: Index, tidy: bool, b: int, i: int)
    requires BitsOk(fb, lb, x, tidy) && Placed(x) && Shaped(x) && b in x.size && x.loc[b] == InSmall(i)
    ensures 0 <= i < NUM_BUCKETS && b in x.smalls[i]
    ensures BitsOk(if |x.smalls[i]| == 1 then ClearBit(fb, i) else fb, lb, RemoveFree(x, b), tidy)
  {
    WordBound(fb, i);
    hide Bit, ClearBit, Members, Shape, TriesListed;
    forall j: nat ensures Bit(ClearBit(fb, i), j) <==> j != i && Bit(fb, j) { ClearBitBits(fb, i, j); }
  }

  /** Taking a block off the rest list: a small one may clear the bit of a one-element bucket. */
  lemma BitsRemoveRest(fb: nat, lb: nat, x: Index, tidy: bool, tidy': bool, b: int, clear: bool)
    requires BitsOk(fb, lb, x, tidy) && Placed(x) && Shaped(x) && b in x.size && x.loc[b] == InRest
    requires Distinct(x.rest) && x.size[b] % 8 == 0 && x.size[b] >= MIN_BLOCK
    requires clear ==> x.size[b] < MAX_SMALL
    requires tidy' ==> tidy && (clear ==> x.smalls[BucketIndex(x.size[b])] == [])
    ensures b in x.rest && (x.size[b] < MAX_SMALL ==> 0 <= BucketIndex(x.size[b]) < NUM_BUCKETS)
    ensures BitsOk(if clear then ClearBit(fb, BucketIndex(x.size[b])) else fb, lb, RemoveFree(x, b), tidy')
  {
    hide Bit, ClearBit, Members, Shape, TriesListed;
    assert b in x.rest;
    WithoutElems(x.rest, b);
    if clear {
      var i := BucketIndex(x.size[b]);
      WordBound(fb, i);
      forall j: nat ensures Bit(ClearBit(fb, i), j) <==> j != i && Bit(fb, j) { ClearBitBits(fb, i, j); }
    }
  }

  lemma BitsRemoveTrie(fb: nat, lb: nat, x: Index, tidy: bool, b: int, i: int, gone: bool)
    requires BitsOk(fb, lb, x, tidy) && Placed(x) && Shaped(x) && b in x.size && x.loc[b] == InTrie(i)
    requires 0 <= i < NUM_BUCKETS && gone == RemoveFree(x, b).tries[i].Nil?
    ensures BitsOk(fb, if gone then ClearBit(lb, i) else lb, RemoveFree(x, b), tidy)
  {
    assert b in Members(x.tries[i]);
    assert x.tries[i].Node?;
    WordBound(lb, i);
    hide Bit, ClearBit, Members, Shape, TriesListed, SmallsListed, Remove;
    forall j: nat ensures Bit(ClearBit(lb, i), j) <==> j != i && Bit(lb, j) { ClearBitBits(lb, i, j); }
  }

  // ---------- the rest counter ----------

  lemma CountAddRest(x: Index, b: int, s: int)
    requires b !in x.size && b !in x.loc
    ensures |RestLarge(AddRest(x, b, s))| == |RestLarge(x)| + (if s >= MAX_SMALL then 1 else 0)
  {
    var y := AddRest(x, b, s);
    if s >= MAX_SMALL { assert RestLarge(y) == RestLarge(x) + {b}; }
    else { assert RestLarge(y) == RestLarge(x); }
  }

  lemma CountAddFree(x: Index, b: int, s: nat)
    requires |x.smalls| == NUM_BUCKETS && |x.tries| == NUM_BUCKETS && Shaped(x) && MIN_BLOCK <= s < WORD
    requires b !in x.size && b !in x.loc
    ensures RestLarge(AddFree(x, b, s)) == RestLarge(x)
  {
    hide Shape, Insert, Log2;
  }

  lemma CountRemove(x: Index, b: int)
    requires Placed(x) && Shaped(x) && b in x.size
    ensures |RestLarge(RemoveFree(x, b))| == |RestLarge(x)| - (if x.loc[b] == InRest && x.size[b] >= MAX_SMALL then 1 else 0)
  {
    hide Shape, Remove, Without, Members, SmallsListed, RestListed, TriesListed;
    var y := RemoveFree(x, b);
    if x.loc[b] == InRest && x.size[b] >= MAX_SMALL {
      assert b in RestLarge(x);
      assert RestLarge(y) == RestLarge(x) - {b};
    } else {
      assert RestLarge(y) == RestLarge(x);
    }
  }

  // ---------- which words an index operation may touch ----------

  ghost predicate Interior(d: map<int, int>, w: int)
  {
    exists a :: a in d && a + 16 <= w < a + d[a]
  }

  /** Only list slots of the heap structure and interiors of the blocks `d` may differ. */
  ghost predicate IndexFrame(m: Mem, m': Mem, h: int, d: map<int, int>)
  {
    forall w :: !(h + 664 <= w < h + 2216) && !Interior(d, w) ==> Rd(m', w) == Rd(m, w)
  }

  lemma GroupFrame(m: Mem, m': Mem, h: int, x: Index, g: Loc, b: int, n: int)
    requires OnlyGroup(m, m', h, x, g, b, n) && GoodLoc(g) && (b in x.size ==> x.size[b] == n)
    ensures IndexFrame(m, m', h, x.size[b := n])
  {
    var d := x.size[b := n];
    forall w | !(h + 664 <= w < h + 2216) && !Interior(d, w) ensures Rd(m', w) == Rd(m, w) {
      assert !(d[b] != n) && !(b + 16 <= w < b + n);
      forall a | a in x.size && a in x.loc && x.loc[a] == g ensures !(a + 16 <= w < a + x.size[a]) { assert a in d; }
      assert !GroupWord(h, x, g, w);
    }
  }

  lemma FrameTrans(m: Mem, m1: Mem, m': Mem, h: int, d: map<int, int>)
    requires IndexFrame(m, m1, h, d) && IndexFrame(m1, m', h, d)
    ensures IndexFrame(m, m', h, d)
  {
  }

  lemma FrameWider(m: Mem, m': Mem, h: int, d: map<int, int>, d': map<int, int>)
    requires IndexFrame(m, m', h, d) && forall a :: a in d ==> a in d' && d'[a] == d[a]
    ensures IndexFrame(m, m', h, d')
  {
    forall w | !(h + 664 <= w < h + 2216) && !Interior(d', w) ensures Rd(m', w) == Rd(m, w) {
      assert !Interior(d, w);
    }
  }

  // ---------- sizes of trie members ----------

  lemma {:induction false} MemberPrefix(m: Mem, slot: int, t: Trie, k: nat, p: nat, a: int)
    requires Rep(m, slot, t) && Shape(t, k, p) && a in Members(t)
    ensures Tag(m, a) >= 0 && Shr(Tag(m, a), k) == p
    decreases t
  {
    hide Ring, Disjoint, Shr;
    if a !in t.ring {
      var hd := t.ring[0];
      if a in Members(t.left) { MemberPrefix(m, ChildSlot(hd, 0), t.left, k - 1, 2 * p, a); }
      else { MemberPrefix(m, ChildSlot(hd, 1), t.right, k - 1, 2 * p + 1, a); }
      ShrStep(Tag(m, a), k);
    }
  }

  /** A large block is filed under its leading bit. */
  lemma TrieBucket(m: Mem, h: int, x: Index, b: int)
    requires IndexInv(m, h, x) && b in x.size && x.loc[b].InTrie?
    ensures x.size[b] > 0 && x.loc[b].i == Log2(x.size[b])
  {
    hide Ring, Rep, Members, Shape, SmallsListed, RestListed, Log2, Shr;
    var i := x.loc[b].i;
    MemberPrefix(m, LargeSlot(h, i), x.tries[i], i, 1, b);
    Log2Leading(x.size[b], i);
  }
}
