/** The small bitmap and the rest list: when the bit of a non-empty bucket gets lost. */
module LostBits {
  import opened Words
  import opened Memory
  import opened Trie
  import opened Index
  import opened IndexOps
  import opened Bitmaps
  import opened IndexSteps

  /** Taking a small block off the rest list keeps the bitmap exact unless the block was alone there
      and the bucket of its size holds exactly one block. */
  lemma LostBitIff(m: Mem, h: int, x: Index, b: int, fb: nat)
    requires IndexInv(m, h, x) && ExactBits(fb, x) && b in x.rest && b in x.size && x.size[b] < MAX_SMALL
    ensures 0 <= BucketIndex(x.size[b]) < NUM_BUCKETS && Placed(x) && Shaped(x)
    ensures ExactBits(BitmapAfter(m, h, b, x.size[b], fb), RemoveFree(x, b))
            <==> !LosesBit(x, b)
  {
    hide Ring, Rep, Members, Shape, OnlyGroup, ClearBit, Bit, Linked, Marked, SmallsListed, TriesListed, Unlink;
    var i, y := BucketIndex(x.size[b]), RemoveFree(x, b);
    RestRemoved(m, h, x, b);
    var m' := Unlink(m, PrevF(m, b), NextF(m, b));
    SmallEmpty(m', h, y, i);
    assert y.smalls == x.smalls;
    assert |x.rest| == 1 <==> x.rest == [b];
    forall j: nat ensures Bit(ClearBit(fb, i), j) <==> j != i && Bit(fb, j) { ClearBitBits(fb, i, j); }
    assert ExactBits(fb, y);
  }
}
