/** When the search of a request's own trie finds the best fit, and when it does not. */
module BestFit {
  import opened Words
  import opened Trie
  import opened Search

  /** The least size of a trie that is at least `s`, or NONE. */
  ghost function LeastFit(t: Trie, s: int): int
  {
    if t.Nil? then NONE
    else Min(if t.size >= s then t.size else NONE, Min(LeastFit(t.left, s), LeastFit(t.right, s)))
  }

  lemma {:induction false} LeastFitSpec(t: Trie, s: int, q: int)
    requires AllBelow(t, NONE)
    ensures var r := LeastFit(t, s);
            && (r != NONE ==> s <= r < NONE && HasSize(t, r)) && r <= NONE
            && (HasSize(t, q) && q >= s ==> r <= q)
    decreases t
  {
    if t.Node? {
      LeastFitSpec(t.left, s, q);
      LeastFitSpec(t.right, s, q);
      HasChild(t, q);
      HasChild(t, LeastFit(t, s));
    }
  }

  /** The best size that the path itself meets. */
  ghost function PathOwn(t: Trie, s: nat, k: nat): int
    decreases t
  {
    if t.Nil? then NONE
    else
      var own := if t.size >= s then t.size else NONE;
      if k == 0 then own
      else Min(own, PathOwn(if Shr(s, k - 1) % 2 == 0 then t.left else t.right, s, k - 1))
  }

  /** The last right subtree that the path passes by. */
  ghost function LastRight(t: Trie, s: nat, k: nat, rst: Trie): Trie
    decreases t
  {
    if t.Nil? || k == 0 then rst
    else if Shr(s, k - 1) % 2 == 0 then LastRight(t.left, s, k - 1, if t.right.Node? then t.right else rst)
    else LastRight(t.right, s, k - 1, rst)
  }

  ghost function WalkOf(t: Trie): int { if t.Node? then DescentMin(t) else NONE }
  ghost function LeastOf(t: Trie): int { if t.Node? then Smallest(t) else NONE }

  /** Every size in `rst` has a greater prefix than the request. */
  ghost predicate Beyond(rst: Trie, s: nat, k: nat)
  {
    rst.Node? ==> Smallest(rst) >= 0 && Shr(Smallest(rst), k) > Shr(s, k)
  }

  lemma BeyondStep(rst: Trie, s: nat, k: nat)
    requires k > 0 && Beyond(rst, s, k)
    ensures Beyond(rst, s, k - 1)
  {
    hide Smallest;
    if rst.Node? {
      ShrStep(Smallest(rst), k);
      ShrStep(s, k);
    }
  }

  /** A right subtree lies beyond a request that turns left, and below every subtree passed before. */
  lemma RightBeyond(t: Trie, s: nat, k: nat, rst: Trie)
    requires t.Node? && k > 0 && Shape(t, k, Shr(s, k)) && Shr(s, k - 1) % 2 == 0 && t.right.Node? && Beyond(rst, s, k)
    requires AllBelow(t, NONE)
    ensures Beyond(t.right, s, k - 1) && LeastOf(t.right) <= LeastOf(rst)
    ensures AllAbove(t.right, s)
  {
    hide Smallest, Shr;
    var p, w := Shr(s, k), Smallest(t.right);
    ShrStep(s, k);
    SmallestIsLeast(t.right, w);
    SizesPrefixed(t.right, k - 1, 2 * p + 1, w);
    ShapeAbove(t.right, k - 1, 2 * p + 1, s);
    NotNone(t.right, w);
    if rst.Node? {
      ShrStep(w, k);
      if w > Smallest(rst) { ShrMonotone(Smallest(rst), w, k); }
    }
  }

  lemma NotNone(t: Trie, w: int)
    requires t.Node? && w == Smallest(t) && AllBelow(t, NONE)
    ensures w < NONE
  {
    hide Smallest;
    SmallestIsLeast(t, w);
    BelowToMembers(t, NONE, w);
  }

  lemma {:induction false} LeastAbove(t: Trie, s: int)
    requires AllAbove(t, s) && AllBelow(t, NONE)
    ensures LeastFit(t, s) == LeastOf(t)
  {
    if t.Node? { LeastAbove(t.left, s); LeastAbove(t.right, s); }
  }

  lemma {:induction false} LeastBelow(t: Trie, s: int)
    requires AllBelow(t, s)
    ensures LeastFit(t, s) == NONE
  {
    if t.Node? { LeastBelow(t.left, s); LeastBelow(t.right, s); }
  }

  /** What the search returns: the better of the path and of the walk down the last right subtree. */
  lemma {:induction false} PathParts(t: Trie, s: nat, k: nat, rst: Trie)
    requires Shape(t, k, Shr(s, k)) && AllAbove(rst, s) && AllBelow(rst, NONE) && AllBelow(t, NONE)
    ensures PathBest(t, s, k, rst) == Min(PathOwn(t, s, k), WalkOf(LastRight(t, s, k, rst)))
    decreases t
  {
    hide Shr, DescentMin;
    if rst.Node? { DescentFinds(rst, s); DescentFinds(rst, NONE); }
    if t.Node? {
      if k == 0 {
        ShrNone(s);
        ShrNone(t.size);
      } else {
        ShrStep(s, k);
        if Shr(s, k - 1) % 2 == 0 {
          ShapeAbove(t.right, k - 1, 2 * Shr(s, k) + 1, s);
          PathParts(t.left, s, k - 1, if t.right.Node? then t.right else rst);
        } else {
          PathParts(t.right, s, k - 1, rst);
        }
      }
    }
  }

  /** What it should return: the better of the path and of the least size of that subtree. */
  lemma {:induction false} LeastParts(t: Trie, s: nat, k: nat, rst: Trie)
    requires Shape(t, k, Shr(s, k)) && AllAbove(rst, s) && AllBelow(rst, NONE) && AllBelow(t, NONE) && Beyond(rst, s, k)
    ensures Min(LeastFit(t, s), LeastOf(rst)) == Min(PathOwn(t, s, k), LeastOf(LastRight(t, s, k, rst)))
    decreases t
  {
    hide Shr, Smallest;
    if rst.Node? { AboveSmallest(rst, s); NotNone(rst, Smallest(rst)); }
    if t.Node? {
      if k == 0 {
        ShrNone(s);
        ShrNone(t.size);
        LeastFitSpec(t, s, s);
        HasChild(t, s);
      } else {
        ShrStep(s, k);
        BeyondStep(rst, s, k);
        if Shr(s, k - 1) % 2 == 0 { LeastLeft(t, s, k, rst); } else { LeastRight(t, s, k, rst); }
      }
    }
  }

  lemma {:induction false} LeastLeft(t: Trie, s: nat, k: nat, rst: Trie)
    requires t.Node? && k > 0 && Shape(t, k, Shr(s, k)) && AllAbove(rst, s) && AllBelow(rst, NONE) && AllBelow(t, NONE)
    requires Beyond(rst, s, k) && Beyond(rst, s, k - 1) && Shr(s, k - 1) % 2 == 0
    ensures Min(LeastFit(t, s), LeastOf(rst)) == Min(PathOwn(t, s, k), LeastOf(LastRight(t, s, k, rst)))
    decreases t, 0
  {
    hide Shr, Smallest;
    ShrStep(s, k);
    if t.right.Node? {
      RightBeyond(t, s, k, rst);
      LeastAbove(t.right, s);
      LeastParts(t.left, s, k - 1, t.right);
    } else {
      LeastParts(t.left, s, k - 1, rst);
    }
  }

  lemma {:induction false} LeastRight(t: Trie, s: nat, k: nat, rst: Trie)
    requires t.Node? && k > 0 && Shape(t, k, Shr(s, k)) && AllAbove(rst, s) && AllBelow(rst, NONE) && AllBelow(t, NONE)
    requires Beyond(rst, s, k - 1) && Shr(s, k - 1) % 2 != 0
    ensures Min(LeastFit(t, s), LeastOf(rst)) == Min(PathOwn(t, s, k), LeastOf(LastRight(t, s, k, rst)))
    decreases t, 0
  {
    hide Shr, Smallest;
    ShrStep(s, k);
    ShapeBelow(t.left, k - 1, 2 * Shr(s, k), s);
    LeastBelow(t.left, s);
    LeastParts(t.right, s, k - 1, rst);
  }

  /** No right subtree was passed by, or the path has met a size as small as the smallest of the last
      one, or that one has its smallest size at its root. */
  ghost predicate PathFindsLeast(t: Trie, s: nat, k: nat)
  {
    var last := LastRight(t, s, k, Nil);
    last.Nil? || PathOwn(t, s, k) <= Smallest(last) || last.size == Smallest(last)
  }

  /** The search of the request's own trie returns the best fit exactly under that condition. */
  lemma BestFitIff(t: Trie, s: nat, k: nat)
    requires Shape(t, k, Shr(s, k)) && AllBelow(t, NONE)
    ensures PathBest(t, s, k, Nil) == LeastFit(t, s) <==> PathFindsLeast(t, s, k)
  {
    hide Shr, Smallest, DescentMin;
    PathParts(t, s, k, Nil);
    LeastParts(t, s, k, Nil);
    LeastFitSpec(t, s, s);
    var last := LastRight(t, s, k, Nil);
    if last.Node? {
      var j, p := LastShape(t, s, k, Nil, k, Shr(s, k));
      SmallestIffRoot(last, j, p);
      SmallestIsLeast(last, DescentMin(last));
      DescentFinds(last, 0);
    }
  }

  /** The last right subtree is a subtree. */
  lemma {:induction false} LastShape(t: Trie, s: nat, k: nat, rst: Trie, k0: nat, p0: nat) returns (j: nat, p: nat)
    requires Shape(t, k, Shr(s, k)) && Shape(rst, k0, p0)
    ensures Shape(LastRight(t, s, k, rst), j, p)
    decreases t
  {
    hide Shr;
    if t.Nil? || k == 0 {
      j, p := k0, p0;
    } else {
      ShrStep(s, k);
      if Shr(s, k - 1) % 2 == 0 {
        if t.right.Node? { j, p := LastShape(t.left, s, k - 1, t.right, k - 1, 2 * Shr(s, k) + 1); }
        else { j, p := LastShape(t.left, s, k - 1, rst, k0, p0); }
      } else {
        j, p := LastShape(t.right, s, k - 1, rst, k0, p0);
      }
    }
  }

  lemma LeafBelow(t: Trie)
    requires t.Node? && t.left.Nil? && t.right.Nil? && t.size < NONE
    ensures AllBelow(t, NONE)
  {
  }

  function MissedRight(): Trie { Node([4096], 1800, Node([8192], 1552, Nil, Nil), Node([16384], 2000, Nil, Nil)) }
  function MissedTrie(): Trie { Node([8], 2040, Nil, MissedRight()) }

  lemma MissedShape()
    ensures Shape(MissedTrie(), 10, 1) && Shr(1056, 10) == 1 && Shr(1056, 9) == 2
  {
    assert Shr(1056, 10) == 1 && Shr(2040, 10) == 1 && Shr(1800, 9) == 3 && Shr(1552, 8) == 6 && Shr(2000, 8) == 7 && Shr(1056, 9) == 2;
    var r := MissedRight();
    assert Shape(r.left, 8, 6) && Shape(r.right, 8, 7);
    assert Shape(r, 9, 3);
  }

  /** A trie in which the search misses the best fit: it returns 1800 for a request of 1056, although
      1552 would do. */
  lemma PathMissesBestFit()
    ensures var t := MissedTrie();
            Shape(t, 10, Shr(1056, 10)) && AllBelow(t, NONE) && HasSize(t, 1552) && PathBest(t, 1056, 10, Nil) == 1800
  {
    MissedShape();
    hide Shr, Shape;
    var t, r := MissedTrie(), MissedRight();
    assert DescentMin(r.right) == 2000 && DescentMin(r) == 1800;
    assert PathBest(Nil, 1056, 9, r) == 1800;
    assert PathBest(t, 1056, 10, Nil) == Min(2040, PathBest(t.left, 1056, 9, r));
    LeafBelow(r.left);
    LeafBelow(r.right);
    assert AllBelow(r, NONE) && AllBelow(Nil, NONE);
    HasChild(r, 1552);
    HasChild(t, 1552);
  }
}
