/** Trie insertion and removal as seen by the whole index. */
module TrieIndex {
  import opened Words
  import opened Memory
  import opened Trie
  import opened TrieOps
  import opened Index

  /** Everything the trie lemmas ask for holds of bucket `i` of a good index. */
  lemma TrieFacts(m: Mem, h: int, x: Index, i: int)
    requires IndexInv(m, h, x) && 0 <= i < NUM_BUCKETS
    ensures var t := x.tries[i];
            && Rep(m, LargeSlot(h, i), t) && Shape(t, i, 1) && Disjoint(t)
            && Apart(Members(t)) && SlotClear(LargeSlot(h, i), Members(t)) && 0 !in Members(t)
            && forall a :: a in Members(t) <==> a in x.size && a in x.loc && x.loc[a] == InTrie(i)
    ensures forall a :: a in Members(x.tries[i]) ==> x.size[a] >= MAX_SMALL && Tag(m, a) == x.size[a] && a > 0
    ensures h > 0
  {
    hide Ring, Rep, Members, Shape, SmallsListed, RestListed;
    ShapeDisjoint(x.tries[i], i, 1);
    forall a | a in Members(x.tries[i]) ensures x.size[a] >= MAX_SMALL && a in x.loc && x.loc[a] == InTrie(i) { }
  }

  lemma TrieFactsNew(m: Mem, h: int, x: Index, i: int, b: int, s: int)
    requires IndexInv(m, h, x) && 0 <= i < NUM_BUCKETS
    requires b !in x.size && Spread(h, x.size[b := s]) && s >= MAX_SMALL
    ensures var t := x.tries[i];
            b !in Members(t) && Apart(Members(t) + {b}) && SlotClear(LargeSlot(h, i), Members(t) + {b})
  {
    TrieFacts(m, h, x, i);
    hide IndexInv, Rep, Members, Shape, Disjoint;
    var t, d := x.tries[i], x.size[b := s];
    forall a | a in Members(t) + {b} ensures a in d && d[a] >= MAX_SMALL { }
  }

  ghost predicate TrieSlot(h: int, t: Trie, i: int, sl: int)
  {
    || sl == LargeSlot(h, i)
    || (exists a, c :: a in Members(t) && 0 <= c <= 1 && sl == ChildSlot(a, c))
  }

  /** Link-word changes inside one trie stay inside its group. */
  lemma TrieOnly(m: Mem, m': Mem, h: int, x: Index, i: int, b: int, n: int, sl: int)
    requires 0 <= i < |x.tries|
    requires forall a :: a in Members(x.tries[i]) ==>
              a in x.size && a in x.loc && x.loc[a] == InTrie(i) && x.size[a] >= MAX_SMALL
    requires SameBut(m, m', sl, Members(x.tries[i]) + {b}) && TrieSlot(h, x.tries[i], i, sl) && n >= MAX_SMALL
    ensures OnlyGroup(m, m', h, x, InTrie(i), b, n)
  {
    var t := x.tries[i];
    hide Members;
    forall w | !GroupWord(h, x, InTrie(i), w) && !(b + 16 <= w < b + n) ensures Rd(m', w) == Rd(m, w) {
      assert w != sl;
      forall a | a in Members(t) + {b} ensures !(a + 16 <= w < a + 56) { }
    }
  }

  lemma TrieAdded(m: Mem, m': Mem, h: int, x: Index, b: int, s: nat)
    requires IndexInv(m, h, x) && b !in x.size && Spread(h, x.size[b := s]) && MAX_SMALL <= s < WORD
    requires Log2(s) < NUM_BUCKETS && Shr(s, Log2(s)) == 1 && Tag(m', b) == s
    requires Rep(m', LargeSlot(h, Log2(s)), Insert(x.tries[Log2(s)], b, s, Log2(s)))
    requires SameBut(m, m', LargeSlot(h, Log2(s)), Members(x.tries[Log2(s)]) + {b})
    ensures IndexInv(m', h, AddTrie(x, b, s))
    ensures OnlyGroup(m, m', h, x, InTrie(Log2(s)), b, s)
  {
    var i := Log2(s);
    assert |x.tries| == NUM_BUCKETS;
    hide IndexInv, Rep, Insert, Shape, Log2, Shr, Members, Spread, OnlyGroup, SameBut;
    TrieFacts(m, h, x, i);
    TrieOnly(m, m', h, x, i, b, s, LargeSlot(h, i));
    AddTrieInv(m, m', h, x, b, s);
  }

  lemma TrieRemoved(m: Mem, m': Mem, h: int, x: Index, b: int, i: int)
    requires IndexInv(m, h, x) && b in x.size && x.loc[b] == InTrie(i) && 0 <= i < NUM_BUCKETS
    requires b in Members(x.tries[i]) && Disjoint(x.tries[i])
    requires var t := x.tries[i];
             var hd := HeadOf(t, b);
             && Disjoint(Sub(t, hd))
             && Rep(m', SlotOf(t, LargeSlot(h, i), hd), RemoveRoot(Sub(t, hd), b))
             && SameBut(m, m', SlotOf(t, LargeSlot(h, i), hd), Members(Sub(t, hd)))
    ensures IndexInv(m', h, RemoveFree(x, b))
    ensures OnlyGroup(m, m', h, x, InTrie(i), b, x.size[b])
  {
    hide Rep, Shape, RemoveRoot, Apart, SlotClear, Disjoint, Spread, Ring, Members, SameBut, OnlyGroup, GroupWord,
         SmallsListed, RestListed, TriesListed, Sized, Marked, SlotPlace, TrieSlot;
    var t := x.tries[i];
    var hd, slot := HeadOf(t, b), LargeSlot(h, i);
    var sl := SlotOf(t, slot, hd);
    TrieFacts(m, h, x, i);
    HeadIsMember(t, hd);
    SlotPlaced(t, slot, hd);
    assert TrieSlot(h, t, i, sl) by { SlotPlaceIsTrieSlot(h, t, i, hd, sl); }
    assert Members(t) + {} == Members(t) && Members(Sub(t, hd)) + {} == Members(Sub(t, hd));
    Graft(m, m', slot, t, hd, RemoveRoot(Sub(t, hd), b), {});
    SameButWider(m, m', sl, Members(Sub(t, hd)), Members(t) + {b});
    TrieOnly(m, m', h, x, i, b, x.size[b], sl);
    RemoveTrieInv(m, m', h, x, b, i);
  }

  lemma SlotPlaceIsTrieSlot(h: int, t: Trie, i: int, hd: int, sl: int)
    requires IsHead(t, hd) && SlotPlace(t, LargeSlot(h, i), hd, sl)
    ensures TrieSlot(h, t, i, sl)
  {
  }

  lemma SameButWider(m: Mem, m': Mem, sl: int, s: set<int>, s': set<int>)
    requires SameBut(m, m', sl, s) && s <= s'
    ensures SameBut(m, m', sl, s')
  {
    forall w | w != sl && !InNodes(s', w) ensures Rd(m', w) == Rd(m, w) { assert !InNodes(s, w); }
  }

  // ---------- the writes of subst_block ----------

  function SubstWrites(m: Mem, sb: int, b: int, g: int): Mem
  {
    var m1 := Wr(Wr(m, sb, g), g + 32, sb);
    var c0 := Child(m1, b, 0);
    var m2 := Wr(m1, ChildSlot(g, 0), c0);
    var m3 := if c0 != 0 then Wr(m2, c0 + 32, ChildSlot(g, 0)) else m2;
    var c1 := Child(m3, b, 1);
    var m4 := Wr(m3, ChildSlot(g, 1), c1);
    if c1 != 0 then Wr(m4, c1 + 32, ChildSlot(g, 1)) else m4
  }

  /** The four blocks of a substitution lie apart from one another and from the slot `sb`. */
  ghost predicate SubstApart(sb: int, b: int, g: int, c0: int, c1: int)
  {
    && (b + 56 <= g || g + 56 <= b)
    && (sb < b || b + 56 <= sb) && (sb < g || g + 56 <= sb)
    && (c0 != 0 ==> (sb < c0 || c0 + 56 <= sb) && (c0 + 56 <= b || b + 56 <= c0) && (c0 + 56 <= g || g + 56 <= c0))
    && (c1 != 0 ==> (sb < c1 || c1 + 56 <= sb) && (c1 + 56 <= b || b + 56 <= c1) && (c1 + 56 <= g || g + 56 <= c1))
    && (c0 != 0 && c1 != 0 ==> c0 + 56 <= c1 || c1 + 56 <= c0)
  }

  /** Block `b` hangs from `sb`, and its children know that they hang from `b`. */
  ghost predicate SubstReady(m: Mem, sb: int, b: int, g: int)
  {
    var c0, c1 := Child(m, b, 0), Child(m, b, 1);
    && SubstApart(sb, b, g, c0, c1) && Parent(m, b) == sb && Rd(m, sb) == b
    && (c0 != 0 ==> Parent(m, c0) == ChildSlot(b, 0)) && (c1 != 0 ==> Parent(m, c1) == ChildSlot(b, 1))
  }

  lemma SubstWritesSubstitute(m: Mem, sb: int, b: int, g: int)
    requires SubstReady(m, sb, b, g)
    ensures Substituted(m, SubstWrites(m, sb, b, g), sb, b, g)
  {
  }

  // ---------- the cases of zend_mm_remove_from_free_list for a trie block ----------

  /** The node that holds `b`, as it lies in memory. */
  ghost predicate AtNode(m: Mem, t: Trie, b: int, hd: int, sl: int)
  {
    && IsHead(t, hd) && b in Sub(t, hd).ring
    && Rep(m, sl, Sub(t, hd)) && Disjoint(Sub(t, hd)) && Apart(Members(Sub(t, hd))) && SlotClear(sl, Members(Sub(t, hd)))
    && 0 !in Members(Sub(t, hd)) && sl > 1
  }

  lemma TrieNode(m: Mem, h: int, x: Index, b: int, i: int)
    requires IndexInv(m, h, x) && b in x.size && x.loc[b] == InTrie(i)
    ensures |x.tries| == NUM_BUCKETS && 0 <= i < NUM_BUCKETS && b in Members(x.tries[i]) && Disjoint(x.tries[i])
    ensures Placed(x) && Shaped(x)
    ensures var t := x.tries[i];
            var hd := HeadOf(t, b);
            && AtNode(m, t, b, hd, SlotOf(t, LargeSlot(h, i), hd))
            && hd in Members(t) && Members(Sub(t, hd)) <= Members(t)
    ensures x.size[b] >= MAX_SMALL && Tag(m, b) == x.size[b]
  {
    hide Rep, Shape, Apart, SlotClear, Disjoint, Ring, Members, SmallsListed, RestListed, SlotPlace;
    TrieFacts(m, h, x, i);
    var t := x.tries[i];
    var hd, slot := HeadOf(t, b), LargeSlot(h, i);
    HeadIsMember(t, hd);
    SubRep(m, slot, t, hd);
    ReplaceMembers(t, hd, Nil);
    assert Members(t) + {} == Members(t) && Members(Sub(t, hd)) + {} == Members(Sub(t, hd));
    SlotNotInside(t, slot, hd, {});
    ApartSub(Members(t), Members(Sub(t, hd)));
    SlotPlaced(t, slot, hd);
    SlotPositive(h, t, i, hd, SlotOf(t, slot, hd));
  }

  lemma ApartSub(s: set<int>, s': set<int>)
    requires Apart(s) && s' <= s
    ensures Apart(s')
  {
  }

  lemma SlotPositive(h: int, t: Trie, i: int, hd: int, sl: int)
    requires IsHead(t, hd) && SlotPlace(t, LargeSlot(h, i), hd, sl) && h > 0 && i >= 0
    requires forall a :: a in Members(t) ==> a > 0
    ensures sl > 1
  {
  }

  /** What the code reads from the links of a trie block. */
  lemma NodeLinks(m: Mem, t: Trie, b: int, hd: int, sl: int)
    requires AtNode(m, t, b, hd, sl)
    ensures var ring := Sub(t, hd).ring;
            && Distinct(ring) && NextF(m, PrevF(m, b)) == b && PrevF(m, NextF(m, b)) == b
            && (PrevF(m, b) == b <==> |ring| == 1) && (PrevF(m, b) == b ==> NextF(m, b) == b && b == hd)
            && Parent(m, b) == (if b == hd then sl else 0)
            && Rd(m, sl) == hd && hd in Members(Sub(t, hd)) && b in Members(Sub(t, hd))
            && PrevF(m, b) in Members(Sub(t, hd)) && NextF(m, b) in Members(Sub(t, hd))
            && PrevF(m, b) == Before(ring, IndexOf(ring, b)) && NextF(m, b) == After(ring, IndexOf(ring, b))
            && (b != hd <==> IndexOf(ring, b) >= 1)
  {
    var cur := Sub(t, hd);
    RingLinked(m, cur.ring, IndexOf(cur.ring, b));
    assert b in Elems(cur.ring) && hd in Elems(cur.ring);
    assert PrevF(m, b) in Elems(cur.ring) && NextF(m, b) in Elems(cur.ring);
  }

  /** A ring member other than the head is unlinked. */
  lemma CaseDrop(m: Mem, h: int, x: Index, b: int, i: int)
    requires IndexInv(m, h, x) && b in x.size && x.loc[b] == InTrie(i) && Parent(m, b) == 0 && PrevF(m, b) != b
    ensures var m' := Wr(Wr(m, PrevF(m, b) + 24, NextF(m, b)), NextF(m, b) + 16, PrevF(m, b));
            IndexInv(m', h, RemoveFree(x, b)) && OnlyGroup(m, m', h, x, InTrie(i), b, x.size[b])
    ensures 0 <= i < |RemoveFree(x, b).tries| && RemoveFree(x, b).tries[i].Node?
  {
    hide IndexInv, Ring, RingOf, Rep, Disjoint, SameBut, OnlyGroup, Members, Apart, SlotClear, Placed, Shaped;
    TrieNode(m, h, x, b, i);
    var t := x.tries[i];
    var hd := HeadOf(t, b);
    var sl := SlotOf(t, LargeSlot(h, i), hd);
    NodeLinks(m, t, b, hd, sl);
    var cur := Sub(t, hd);
    var g, y := PrevF(m, b), NextF(m, b);
    var m' := Wr(Wr(m, g + 24, y), y + 16, g);
    var k := IndexOf(cur.ring, b);
    UnlinkedWords(m, m', sl, Members(cur), g, y);
    LocalDrop(m, m', sl, cur, k);
    TrieRemoved(m, m', h, x, b, i);
    ReplacedNode(t, hd, RemoveRoot(cur, b));
    RemoveFreeTrie(x, b, i);
  }

  lemma UnlinkedWords(m: Mem, m': Mem, sl: int, s: set<int>, g: int, y: int)
    requires g in s && y in s && Apart(s) && m' == Wr(Wr(m, g + 24, y), y + 16, g)
    ensures SameBut(m, m', sl, s) && NextF(m', g) == y && PrevF(m', y) == g
  {
  }

  lemma RemoveFreeTrie(x: Index, b: int, i: int)
    requires Placed(x) && Shaped(x) && b in x.size && x.loc[b] == InTrie(i) && 0 <= i < NUM_BUCKETS
    requires b in Members(x.tries[i]) && Disjoint(x.tries[i])
    ensures RemoveFree(x, b).tries == x.tries[i := Remove(x.tries[i], b)]
  {
  }

  lemma ReplacedNode(t: Trie, hd: int, n: Trie)
    requires IsHead(t, hd)
    ensures Replace(t, hd, n).Nil? <==> t.ring[0] == hd && n.Nil?
  {
  }

  /** The head of a longer ring: unlinked, then replaced by its predecessor. */
  lemma CaseSwap(m: Mem, h: int, x: Index, b: int, i: int)
    requires IndexInv(m, h, x) && b in x.size && x.loc[b] == InTrie(i) && Parent(m, b) != 0 && PrevF(m, b) != b
    ensures var m1 := Wr(Wr(m, PrevF(m, b) + 24, NextF(m, b)), NextF(m, b) + 16, PrevF(m, b));
            var m' := SubstWrites(m1, Parent(m1, b), b, PrevF(m, b));
            && IndexInv(m', h, RemoveFree(x, b)) && OnlyGroup(m, m', h, x, InTrie(i), b, x.size[b])
            && SubstReady(m1, Parent(m1, b), b, PrevF(m, b)) && Parent(m1, b) > 1
    ensures 0 <= i < |RemoveFree(x, b).tries| && RemoveFree(x, b).tries[i].Node?
  {
    hide IndexInv, Ring, RingOf, Disjoint, SameBut, Substituted, SubstWrites, SubstReady, OnlyGroup, Placed, Shaped;
    TrieNode(m, h, x, b, i);
    var t := x.tries[i];
    var hd := HeadOf(t, b);
    var sl := SlotOf(t, LargeSlot(h, i), hd);
    NodeLinks(m, t, b, hd, sl);
    var cur := Sub(t, hd);
    var g, y := PrevF(m, b), NextF(m, b);
    var m1 := Wr(Wr(m, g + 24, y), y + 16, g);
    UnlinkReads(m, m1, sl, cur, g, y);
    hide Rep, Members, Apart, SlotClear;
    SubstWritesSubstitute(m1, sl, b, g);
    var m' := SubstWrites(m1, sl, b, g);
    LocalHeadSwap(m, m1, m', sl, cur);
    TrieRemoved(m, m', h, x, b, i);
    ReplacedNode(t, hd, RemoveRoot(cur, b));
    RemoveFreeTrie(x, b, i);
  }

  lemma UnlinkReads(m: Mem, m1: Mem, sl: int, cur: Trie, g: int, y: int)
    requires Rep(m, sl, cur) && cur.Node? && Disjoint(cur) && Apart(Members(cur)) && SlotClear(sl, Members(cur))
    requires 0 !in Members(cur)
    requires g in Members(cur) && y in Members(cur) && m1 == Wr(Wr(m, g + 24, y), y + 16, g) && g != cur.ring[0]
    requires g in Elems(cur.ring)
    ensures var b := cur.ring[0];
            && SubstReady(m1, sl, b, g) && Parent(m1, b) == sl
            && NextF(m1, g) == y && PrevF(m1, y) == g
            && (forall w :: w != g + 24 && w != y + 16 ==> Rd(m1, w) == Rd(m, w))
  {
    hide RingOf;
    var b := cur.ring[0];
    NodeChildren(m, sl, cur);
    var s := Members(cur);
    hide Members, Rep, Disjoint;
    RingWords(m, m1, s, sl, g, y, b);
    var c0, c1 := Child(m, b, 0), Child(m, b, 1);
    if c0 != 0 { RingWords(m, m1, s, sl, g, y, c0); }
    if c1 != 0 { RingWords(m, m1, s, sl, g, y, c1); }
    FourApart(sl, b, g, c0, c1, s);
  }

  /** The children of a node: other blocks, which name the slots they hang from. */
  lemma NodeChildren(m: Mem, sl: int, cur: Trie)
    requires Rep(m, sl, cur) && cur.Node? && Disjoint(cur) && 0 !in Members(cur)
    ensures var b := cur.ring[0];
            var c0, c1 := Child(m, b, 0), Child(m, b, 1);
            && b in Members(cur) && Parent(m, b) == sl && Rd(m, sl) == b
            && (c0 != 0 ==> c0 in Members(cur) && c0 !in Elems(cur.ring) && Parent(m, c0) == ChildSlot(b, 0))
            && (c1 != 0 ==> c1 in Members(cur) && c1 !in Elems(cur.ring) && Parent(m, c1) == ChildSlot(b, 1))
            && (c0 != 0 && c1 != 0 ==> c0 != c1) && b in Elems(cur.ring)
  {
    hide RingOf;
    assert cur.ring[0] in Elems(cur.ring);
    assert cur.left.Node? ==> cur.left.ring[0] in Elems(cur.left.ring);
    assert cur.right.Node? ==> cur.right.ring[0] in Elems(cur.right.ring);
  }

  /** The two writes of an unlinking miss the tree words of every block. */
  lemma RingWords(m: Mem, m1: Mem, s: set<int>, sl: int, g: int, y: int, a: int)
    requires Apart(s) && SlotClear(sl, s) && g in s && y in s && a in s && m1 == Wr(Wr(m, g + 24, y), y + 16, g)
    ensures Parent(m1, a) == Parent(m, a) && Child(m1, a, 0) == Child(m, a, 0) && Child(m1, a, 1) == Child(m, a, 1)
    ensures Rd(m1, sl) == Rd(m, sl) && NextF(m1, g) == y && PrevF(m1, y) == g
    ensures forall w :: w != g + 24 && w != y + 16 ==> Rd(m1, w) == Rd(m, w)
  {
  }

  /** A lone block without children: its slot is cleared. */
  lemma CaseLeaf(m: Mem, h: int, x: Index, b: int, i: int)
    requires IndexInv(m, h, x) && b in x.size && x.loc[b] == InTrie(i) && PrevF(m, b) == b
    requires Child(m, b, 0) == 0 && Child(m, b, 1) == 0
    ensures var m' := Wr(m, Parent(m, b), 0);
            && IndexInv(m', h, RemoveFree(x, b)) && OnlyGroup(m, m', h, x, InTrie(i), b, x.size[b])
            && Rd(m, Parent(m, b)) == b
    ensures 0 <= i < |RemoveFree(x, b).tries|
    ensures RemoveFree(x, b).tries[i].Nil? <==> Parent(m, b) == LargeSlot(h, i)
  {
    hide IndexInv, Ring, RingOf, Disjoint, SameBut, OnlyGroup, Members, Apart, SlotClear, Placed, Shaped;
    TrieNode(m, h, x, b, i);
    var t := x.tries[i];
    var hd := HeadOf(t, b);
    var sl := SlotOf(t, LargeSlot(h, i), hd);
    NodeLinks(m, t, b, hd, sl);
    var cur := Sub(t, hd);
    LoneChildren(m, sl, cur);
    var m' := Wr(m, sl, 0);
    assert RemoveRoot(cur, b) == Nil;
    assert Rep(m', sl, Nil);
    SlotWritten(m, m', sl, Members(cur));
    TrieRemoved(m, m', h, x, b, i);
    ReplacedNode(t, hd, Nil);
    RemoveFreeTrie(x, b, i);
    TrieFacts(m, h, x, i);
    assert Members(t) + {} == Members(t);
    SlotNotInside(t, LargeSlot(h, i), hd, {});
  }

  lemma SlotWritten(m: Mem, m': Mem, sl: int, s: set<int>)
    requires m' == Wr(m, sl, 0)
    ensures SameBut(m, m', sl, s)
  {
  }

  /** A lone block with children: the leaf `g` below it is cut at `rp` and takes its place. */
  lemma CaseLeafSwap(m: Mem, h: int, x: Index, b: int, i: int, c: int, u: Trie, g: int, rp: int)
    requires IndexInv(m, h, x) && b in x.size && x.loc[b] == InTrie(i) && PrevF(m, b) == b
    requires 0 <= i < |x.tries| && b in Members(x.tries[i]) && Disjoint(x.tries[i])
    requires c == (if Child(m, b, 1) != 0 then 1 else 0) && Child(m, b, c) != 0
    requires var cur := Sub(x.tries[i], HeadOf(x.tries[i], b)); u == (if c == 1 then cur.right else cur.left)
    requires u.Node? && |Leaf(u).ring| > 0 && IsHead(u, Leaf(u).ring[0])
    requires g == Leaf(u).ring[0] && rp == SlotOf(u, ChildSlot(b, c), g)
    ensures var m1 := Wr(m, rp, 0);
            var m' := SubstWrites(m1, Parent(m1, b), b, g);
            && IndexInv(m', h, RemoveFree(x, b)) && OnlyGroup(m, m', h, x, InTrie(i), b, x.size[b])
            && SubstReady(m1, Parent(m1, b), b, g) && Parent(m1, b) > 1
    ensures 0 <= i < |RemoveFree(x, b).tries| && RemoveFree(x, b).tries[i].Node?
  {
    hide IndexInv, Ring, RingOf, Disjoint, SameBut, OnlyGroup, Apart, SlotClear, Placed, Shaped, Substituted,
         SubstWrites, SubstReady, Leaf, Members, Rep;
    TrieNode(m, h, x, b, i);
    var t := x.tries[i];
    var hd := HeadOf(t, b);
    var sl := SlotOf(t, LargeSlot(h, i), hd);
    NodeLinks(m, t, b, hd, sl);
    var cur := Sub(t, hd);
    LoneChildren(m, sl, cur);
    var m1 := Wr(m, rp, 0);
    LeafReads(m, m1, sl, cur, c, u, rp);
    SubstWritesSubstitute(m1, sl, b, g);
    var m' := SubstWrites(m1, sl, b, g);
    LocalLeafSwap(m, m1, m', sl, cur, c);
    TrieRemoved(m, m', h, x, b, i);
    ReplacedNode(t, hd, RemoveRoot(cur, b));
    RemoveFreeTrie(x, b, i);
    CutMembers(cur, c);
  }

  lemma LeafReads(m: Mem, m1: Mem, sl: int, cur: Trie, c: int, u: Trie, rp: int)
    requires Rep(m, sl, cur) && cur.Node? && Disjoint(cur) && Apart(Members(cur)) && SlotClear(sl, Members(cur))
    requires 0 !in Members(cur)
    requires 0 <= c <= 1 && u == (if c == 1 then cur.right else cur.left)
    requires u.Node? && |Leaf(u).ring| > 0 && IsHead(u, Leaf(u).ring[0])
    requires rp == SlotOf(u, ChildSlot(cur.ring[0], c), Leaf(u).ring[0]) && m1 == Wr(m, rp, 0)
    ensures var b, g := cur.ring[0], Leaf(u).ring[0];
            SubstReady(m1, sl, b, g) && Parent(m1, b) == sl
  {
    hide RingOf, Leaf, Apart, SlotClear, Rep, IsHead;
    var b, g := cur.ring[0], Leaf(u).ring[0];
    assert b in Elems(cur.ring) && Members(u) <= Members(cur) && b !in Members(u);
    LeafIsHead(u);
    HeadIsMember(u, g);
    hide Disjoint, Members;
    var e, d := CutSlot(b, c, u, cur);
    LoneChildren(m, sl, cur);
    LeafChildren(m, m1, cur, c, u, e, d);
    SlotAndNode(m, m1, sl, Members(cur), b, e, d, cur);
    FourApart(sl, b, g, Child(m1, b, 0), Child(m1, b, 1), Members(cur));
    ChildParents(m, m1, sl, cur, e, d);
  }

  /** Children that remain after one child slot is cleared still name their own slots. */
  lemma ChildParents(m: Mem, m1: Mem, sl: int, cur: Trie, e: int, d: int)
    requires Rep(m, sl, cur) && cur.Node? && Apart(Members(cur)) && 0 !in Members(cur) && e in Members(cur)
    requires 0 <= d <= 1
    requires m1 == Wr(m, ChildSlot(e, d), 0)
    ensures var b := cur.ring[0];
            && (Child(m1, b, 0) != 0 ==> Parent(m1, Child(m1, b, 0)) == ChildSlot(b, 0))
            && (Child(m1, b, 1) != 0 ==> Parent(m1, Child(m1, b, 1)) == ChildSlot(b, 1))
  {
    hide RingOf;
    var b := cur.ring[0];
    assert b in Elems(cur.ring);
    assert cur.left.Node? ==> cur.left.ring[0] in Elems(cur.left.ring) && Child(m, b, 0) == cur.left.ring[0];
    assert cur.right.Node? ==> cur.right.ring[0] in Elems(cur.right.ring) && Child(m, b, 1) == cur.right.ring[0];
  }

  lemma SlotAndNode(m: Mem, m1: Mem, sl: int, s: set<int>, b: int, e: int, d: int, cur: Trie)
    requires Rep(m, sl, cur) && cur.Node? && b == cur.ring[0] && b in s && e in s && 0 <= d <= 1
    requires Apart(s) && SlotClear(sl, s) && m1 == Wr(m, ChildSlot(e, d), 0)
    ensures Parent(m1, b) == sl && Rd(m1, sl) == b
  {
    hide RingOf;
  }

  lemma FourApart(sl: int, b: int, g: int, c0: int, c1: int, s: set<int>)
    requires Apart(s) && SlotClear(sl, s) && b in s && g in s && b != g
    requires (c0 != 0 ==> c0 in s && c0 != b && c0 != g) && (c1 != 0 ==> c1 in s && c1 != b && c1 != g)
    requires c0 != 0 && c1 != 0 ==> c0 != c1
    ensures SubstApart(sl, b, g, c0, c1)
  {
  }

  /** After the cut, the children of `b` that remain are heads other than the leaf. */
  lemma LeafChildren(m: Mem, m1: Mem, cur: Trie, c: int, u: Trie, e: int, d: int)
    requires cur.Node? && |cur.ring| > 0 && Disjoint(cur) && Apart(Members(cur)) && 0 !in Members(cur)
    requires 0 <= c <= 1 && u == (if c == 1 then cur.right else cur.left) && u.Node? && |u.ring| > 0
    requires |Leaf(u).ring| > 0 && IsHead(u, Leaf(u).ring[0])
    requires SlotOf(u, ChildSlot(cur.ring[0], c), Leaf(u).ring[0]) == ChildSlot(e, d) && 0 <= d <= 1
    requires e in Members(cur) && e !in Members(Leaf(u)) && ((e == cur.ring[0] && d == c) || e in Members(u))
    requires m1 == Wr(m, ChildSlot(e, d), 0)
    requires Child(m, cur.ring[0], c) == u.ring[0]
    requires var o := if c == 1 then cur.left else cur.right;
             (Child(m, cur.ring[0], 1 - c) == 0 <==> o.Nil?) && (o.Node? ==> |o.ring| > 0 && Child(m, cur.ring[0], 1 - c) == o.ring[0])
    ensures var b, g := cur.ring[0], Leaf(u).ring[0];
            && Child(m1, b, 1 - c) == Child(m, b, 1 - c)
            && (Child(m1, b, 1 - c) != 0 ==> Child(m1, b, 1 - c) in Members(cur) - Members(u) - {b})
            && (Child(m1, b, c) != 0 ==> Child(m1, b, c) in Members(u) && Child(m1, b, c) != g)
  {
    var b, g := cur.ring[0], Leaf(u).ring[0];
    var o := if c == 1 then cur.left else cur.right;
    assert b in Elems(cur.ring) && b !in Members(u);
    LeafIsHead(u);
    assert o.Node? ==> o.ring[0] in Elems(o.ring);
    assert u.ring[0] in Elems(u.ring);
    if u.ring[0] == g {
      assert SlotOf(u, ChildSlot(b, c), g) == ChildSlot(b, c);
    }
  }
}
