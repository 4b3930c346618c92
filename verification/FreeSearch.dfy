/** The search of `_zend_mm_alloc_int` for a free block: the small buckets, then the tries, then,
    close to the memory limit, the rest list. */
module FreeSearch {
  import opened Words
  import opened Memory
  import opened Index
  import opened IndexOps
  import opened Bitmaps
  import opened IndexSteps
  import opened Search
  import opened LargeSearch

  ghost predicate SmallFit(x: Index, s: int, a: int)
  {
    a in x.size && a in x.loc && x.loc[a].InSmall? && x.size[a] >= s
  }

  ghost predicate RestFit(x: Index, s: int, a: int)
  {
    a in x.size && a in x.loc && x.loc[a] == InRest && x.size[a] >= s
  }

  /** The block is in a small bucket, and the bitmap shows it. */
  ghost predicate Seen(x: Index, fb: nat, a: int)
  {
    a in x.loc && x.loc[a].InSmall? && x.loc[a].i >= 0 && Bit(fb, x.loc[a].i)
  }

  /** What the search promises about the block it picks. */
  ghost predicate Picked(x: Index, fb: nat, s: int, b: int)
  {
    && b in x.size && b in x.loc && x.size[b] >= s
    && match x.loc[b]
       case InSmall(_) => Seen(x, fb, b) && forall a :: SmallFit(x, s, a) && Seen(x, fb, a) ==> x.size[b] <= x.size[a]
       case InTrie(_) => GoodFit(x, s, b)
       case InRest => forall a :: RestFit(x, s, a) ==> x.size[b] <= x.size[a]
  }

  /** No block that the search can find: whatever fits is on the rest list while the limit is far, or in a
      small bucket whose bit is lost. */
  ghost predicate NothingFits(x: Index, fb: nat, nearLimit: bool, s: int)
  {
    forall a :: a in x.size && x.size[a] >= s ==>
      a in x.loc && ((x.loc[a] == InRest && !nearLimit) || (x.loc[a].InSmall? && !Seen(x, fb, a)))
  }

  /** The block that a successful search returns: the oldest of the first bucket with its bit set, for a
      small size; if there is none, the choice of the large search; if there is none either and the limit
      is near, the smallest fit of the rest list, and of several the youngest. */
  ghost predicate FoundFit(x: Index, fb: nat, nearLimit: bool, s: nat, b: int)
  {
    && Picked(x, fb, s, b)
    && (x.loc[b].InSmall? ==> Small(s) && OldestOf(x, b))
    && (!x.loc[b].InSmall? && Small(s) ==> forall a :: SmallFit(x, s, a) ==> !Seen(x, fb, a))
    && (x.loc[b].InTrie? ==> Chosen(x, s, b) && (LeastOfFits(x, s, b) <==> FindsLeast(x, s)))
    && (x.loc[b] == InRest ==> nearLimit && YoungestFit(x, s, b) && forall a :: !Fits(x, s, a))
  }

  /** The block was the first to join its bucket. */
  ghost predicate OldestOf(x: Index, b: int)
  {
    && b in x.loc && x.loc[b].InSmall? && 0 <= x.loc[b].i < |x.smalls|
    && (var q := x.smalls[x.loc[b].i]; |q| > 0 && q[|q| - 1] == b)
  }

  lemma BitInWord(n: nat, i: nat)
    requires n < WORD && Bit(n, i)
    ensures i < 64
  {
    if i >= 64 {
      Pow2At64();
      ShrBounds(n, i);
      Pow2Monotone(64, i);
      ShrBig(n, i);
    }
  }

  lemma {:induction false} ShrBig(n: nat, i: nat)
    requires n < Pow2(i)
    ensures Shr(n, i) == 0
  {
    if i > 0 { ShrBig(n / 2, i - 1); }
  }

  /** The first set bit from `index` on. */
  lemma FirstBucket(fb: nat, index: nat, r: nat)
    requires fb < WORD && Bit(Shr(fb, index), r) && forall j: nat | j < r :: !Bit(Shr(fb, index), j)
    ensures index + r < NUM_BUCKETS && Bit(fb, index + r)
    ensures forall j: nat | index <= j < index + r :: !Bit(fb, j)
  {
    hide Bit, Shr;
    ShiftedBit(fb, index, r);
    BitInWord(fb, index + r);
    forall j: nat | index <= j < index + r ensures !Bit(fb, j) { ShiftedBit(fb, index, j - index); }
  }

  lemma NoBucket(fb: nat, index: nat)
    requires Shr(fb, index) == 0
    ensures forall j: nat | index <= j :: !Bit(fb, j)
  {
    forall j: nat | index <= j ensures !Bit(fb, j) {
      ShiftedBit(fb, index, j - index);
      ShrZero(j - index);
    }
  }

  /** Bit `i` is the first one set from `index` on. */
  ghost predicate FirstBit(fb: nat, index: int, i: int)
  {
    0 <= index <= i && Bit(fb, i) && forall j: nat :: index <= j < i ==> !Bit(fb, j)
  }

  /** The smallest non-empty bucket that fits, as far as the bitmap knows. */
  method SearchSmall(mem: Mem, base: int, freeBitmap: nat, trueSize: nat, ghost x: Index, ghost lb: nat, ghost tidy: bool)
    returns (b: int)
    requires IndexInv(mem, base, x) && BitsOk(freeBitmap, lb, x, tidy)
    requires MIN_BLOCK <= trueSize < MAX_SMALL && trueSize % 8 == 0
    ensures b != 0 ==> Picked(x, freeBitmap, trueSize, b) && x.loc[b].InSmall? && OldestOf(x, b)
    ensures b != 0 ==>
              FirstBit(freeBitmap, BucketIndex(trueSize), x.loc[b].i) && b == PrevF(mem, SmallHead(base, x.loc[b].i))
    ensures b == 0 <==> forall j: nat :: BucketIndex(trueSize) <= j ==> !Bit(freeBitmap, j)
    ensures b == 0 <==> forall a :: SmallFit(x, trueSize, a) ==> !Seen(x, freeBitmap, a)
  {
    hide IndexInv, Shr, Bit;
    var index := BucketIndex(trueSize);
    var bitmap := Shr(freeBitmap, index);
    if bitmap != 0 {
      var r := LowBit(bitmap);
      FirstBucket(freeBitmap, index, r);
      var i := index + r;
      b := PrevF(mem, SmallHead(base, i));
      SmallPicked(mem, base, x, index, i, trueSize, tidy, freeBitmap, lb);
    } else {
      b := 0;
      NoBucket(freeBitmap, index);
      forall a | SmallFit(x, trueSize, a) ensures !Seen(x, freeBitmap, a) { SmallBucket(mem, base, x, a); }
    }
  }

  lemma SmallBucket(m: Mem, h: int, x: Index, a: int)
    requires IndexInv(m, h, x) && a in x.size && a in x.loc && x.loc[a].InSmall?
    ensures |x.smalls| == NUM_BUCKETS && 0 <= x.loc[a].i < NUM_BUCKETS
    ensures a in x.smalls[x.loc[a].i] && x.size[a] == MIN_BLOCK + 8 * x.loc[a].i
  {
    hide Spread, Linked, Marked, Shaped, RestListed, TriesListed;
  }

  lemma SmallPicked(m: Mem, h: int, x: Index, index: int, i: int, s: int, tidy: bool, fb: nat, lb: nat)
    requires IndexInv(m, h, x) && BitsOk(fb, lb, x, tidy) && 0 <= index <= i < NUM_BUCKETS && s == MIN_BLOCK + 8 * index
    requires Bit(fb, i) && forall j: nat | index <= j < i :: !Bit(fb, j)
    ensures var b := PrevF(m, SmallHead(h, i)); b != 0 && Picked(x, fb, s, b) && x.loc[b] == InSmall(i) && OldestOf(x, b)
  {
    hide IndexInv, Bit;
    SmallEmpty(m, h, x, i);
    SmallMembers(m, h, x, i);
    var b := PrevF(m, SmallHead(h, i));
    SmallOldest(m, h, x, i);
    assert b in x.smalls[i];
    SmallBucket(m, h, x, b);
    BlockNotZero(m, h, x, b);
    forall a | SmallFit(x, s, a) && Seen(x, fb, a) ensures x.size[b] <= x.size[a] { SmallBucket(m, h, x, a); }
  }

  lemma SmallOldest(m: Mem, h: int, x: Index, i: int)
    requires IndexInv(m, h, x) && 0 <= i < NUM_BUCKETS && |x.smalls| == NUM_BUCKETS && x.smalls[i] != []
    ensures PrevF(m, SmallHead(h, i)) == x.smalls[i][|x.smalls[i]| - 1]
  {
    hide IndexInv;
    SmallMembers(m, h, x, i);
    var q := [SmallHead(h, i)] + x.smalls[i];
    assert PrevF(m, q[0]) == Before(q, 0);
  }

  lemma BlockNotZero(m: Mem, h: int, x: Index, b: int)
    requires IndexInv(m, h, x) && b in x.size
    ensures b > 0 && x.size[b] < NONE && Tag(m, b) == x.size[b]
  {
    hide Placed, Linked, Shaped;
  }

  /** The walk over the rest list, youngest block first: the smallest fit, and an exact one at once. */
  method SearchRestList(mem: Mem, base: int, trueSize: nat, ghost x: Index) returns (b: int)
    requires IndexInv(mem, base, x)
    ensures b == 0 <==> forall a :: !RestFit(x, trueSize, a)
    ensures b != 0 ==> RestFit(x, trueSize, b) && forall a :: RestFit(x, trueSize, a) ==> x.size[b] <= x.size[a]
    ensures b != 0 ==> YoungestFit(x, trueSize, b)
  {
    hide IndexInv, Ring;
    RestMembers(mem, base, x);
    ghost var q := [RestHead(base)] + x.rest;
    ghost var k := |x.rest|;
    RingLinked(mem, q, 0);
    var p, bestSize := PrevF(mem, RestHead(base)), NONE;
    RestApart(mem, base, x);
    b := 0;
    ghost var at := -1;
    while p != RestHead(base)
      invariant 0 <= k <= |x.rest| && p == q[k] && (b != 0 ==> k <= at && FitAt(x, trueSize, b, at))
      invariant b == 0 ==> bestSize == NONE && forall j :: k <= j < |x.rest| ==> x.size[x.rest[j]] < trueSize
      invariant b != 0 ==> b in x.rest && x.size[b] == bestSize > trueSize
      invariant b != 0 ==>
                forall j :: k <= j < |x.rest| && x.size[x.rest[j]] >= trueSize ==> bestSize <= x.size[x.rest[j]]
      decreases k
    {
      assert k > 0 && p == x.rest[k - 1] && p in x.rest;
      BlockNotZero(mem, base, x, p);
      if Tag(mem, p) == trueSize {
        b := p;
        assert RestFit(x, trueSize, b) && FitAt(x, trueSize, b, k - 1);
        return;
      } else if Tag(mem, p) > trueSize && Tag(mem, p) < bestSize {
        bestSize := Tag(mem, p);
        b := p;
        at := k - 1;
      }
      RingLinked(mem, q, k);
      p := PrevF(mem, p);
      k := k - 1;
    }
    RestEnd(mem, base, x, k, trueSize, b);
  }

  /** Block `b` is number `at` of the rest list, and smaller than every younger fit. */
  ghost predicate FitAt(x: Index, s: int, b: int, at: int)
  {
    && 0 <= at < |x.rest| && x.rest[at] == b && b in x.size
    && forall j :: at < j < |x.rest| && x.rest[j] in x.size && x.size[x.rest[j]] >= s ==> x.size[b] < x.size[x.rest[j]]
  }

  ghost predicate YoungestFit(x: Index, s: int, b: int) { exists at :: FitAt(x, s, b, at) }

  lemma RestApart(m: Mem, h: int, x: Index)
    requires IndexInv(m, h, x)
    ensures forall j :: 0 <= j < |x.rest| ==> x.rest[j] in x.rest && x.rest[j] in x.size && x.rest[j] != RestHead(h)
  {
    hide IndexInv;
    forall j | 0 <= j < |x.rest| ensures x.rest[j] in x.rest && x.rest[j] in x.size && x.rest[j] != RestHead(h) {
      assert x.rest[j] in x.rest;
      RestOne(m, h, x, x.rest[j]);
    }
  }

  lemma RestOne(m: Mem, h: int, x: Index, a: int)
    requires IndexInv(m, h, x) && a in x.rest
    ensures a in x.size && a != RestHead(h)
  {
    hide Linked, Shaped, Marked, SmallsListed, TriesListed, Sized;
    assert a in x.loc && a in x.size;
  }

  lemma RestEnd(m: Mem, h: int, x: Index, k: int, s: int, b: int)
    requires IndexInv(m, h, x) && 0 <= k <= |x.rest| && ([RestHead(h)] + x.rest)[k] == RestHead(h)
    requires forall j :: 0 <= j < |x.rest| ==> x.rest[j] in x.size && x.rest[j] != RestHead(h)
    requires b == 0 ==> forall j :: k <= j < |x.rest| ==> x.size[x.rest[j]] < s
    requires b != 0 ==>
              && b in x.rest && x.size[b] > s
              && forall j :: k <= j < |x.rest| && x.size[x.rest[j]] >= s ==> x.size[b] <= x.size[x.rest[j]]
    ensures b == 0 <==> forall a :: !RestFit(x, s, a)
    ensures b != 0 ==> RestFit(x, s, b) && forall a :: RestFit(x, s, a) ==> x.size[b] <= x.size[a]
  {
    hide IndexInv;
    RestMembers(m, h, x);
    assert k == 0;
    forall a | RestFit(x, s, a) ensures b != 0 && x.size[b] <= x.size[a] {
      var j :| 0 <= j < |x.rest| && x.rest[j] == a;
      assert x.size[x.rest[j]] >= s;
    }
    if b != 0 { assert RestFit(x, s, b); }
  }

  /** The three searches in the order of the source; 0 exactly when there is nothing to be found. A block
      from the tries is a least fit exactly if the large search finds one. */
  method FindFree(mem: Mem, base: int, freeBitmap: nat, largeBitmap: nat, trueSize: nat, nearLimit: bool,
                  ghost x: Index, ghost tidy: bool) returns (b: int)
    requires IndexInv(mem, base, x) && BitsOk(freeBitmap, largeBitmap, x, tidy)
    requires MIN_BLOCK <= trueSize < WORD && trueSize % 8 == 0
    ensures b != 0 ==> FoundFit(x, freeBitmap, nearLimit, trueSize, b)
    ensures b == 0 <==> NothingFits(x, freeBitmap, nearLimit, trueSize)
  {
    hide IndexInv, BitsOk, Seen, LeastOfFits, FindsLeast, Chosen, OldestOf, YoungestFit;
    if Small(trueSize) {
      b := SearchSmall(mem, base, freeBitmap, trueSize, x, largeBitmap, tidy);
      if b != 0 { return; }
    }
    b := SearchLargeBlock(mem, base, largeBitmap, trueSize, x, freeBitmap, tidy);
    if b == 0 && nearLimit {
      b := SearchRestList(mem, base, trueSize, x);
    }
    if b == 0 {
      forall a | a in x.size && x.size[a] >= trueSize
        ensures a in x.loc && ((x.loc[a] == InRest && !nearLimit) || (x.loc[a].InSmall? && !Seen(x, freeBitmap, a)))
      {
        Somewhere(mem, base, x, a);
        assert !Fits(x, trueSize, a);
        if x.loc[a].InSmall? { assert SmallFit(x, trueSize, a); SmallBucket(mem, base, x, a); }
        if x.loc[a] == InRest { assert RestFit(x, trueSize, a); }
      }
    }
  }

  /** While the bits are exact, the small search sees every small block. */
  lemma ExactSees(m: Mem, h: int, x: Index, fb: nat, s: nat)
    requires IndexInv(m, h, x) && ExactBits(fb, x)
    ensures forall a :: SmallFit(x, s, a) ==> Seen(x, fb, a)
  {
    hide IndexInv, Bit;
    forall a | SmallFit(x, s, a) ensures Seen(x, fb, a) { SmallBucket(m, h, x, a); }
  }

  lemma Somewhere(m: Mem, h: int, x: Index, a: int)
    requires IndexInv(m, h, x) && a in x.size
    ensures a in x.loc
  {
    hide Spread, Linked, Marked, Shaped;
  }
}
