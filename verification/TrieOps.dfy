/** Insertion into and removal from a large-block trie, as values and in memory. */
module TrieOps {
  import opened Words
  import opened Memory
  import opened Trie

  // ---------- insertion ----------

  /** Where `zend_mm_add_to_free_list` puts block `b` of size `s` when `k` bits are left to branch on. */
  ghost function Insert(t: Trie, b: int, s: nat, k: nat): Trie
    requires Shape(t, k, Shr(s, k))
    decreases t
  {
    match t
    case Nil => Node([b], s, Nil, Nil)
    case Node(ring, size, l, r) =>
      if size == s then t.(ring := InsertAfter(ring, 0, b))
      else (NextBit(s, k);
            if Shr(s, k - 1) % 2 == 0 then t.(left := Insert(l, b, s, k - 1))
            else t.(right := Insert(r, b, s, k - 1)))
  }

  lemma NextBit(s: nat, k: nat)
    ensures k > 0 ==> Shr(s, k) == Shr(s, k - 1) / 2
  {
    if k > 0 { ShrStep(s, k); }
  }

  lemma ElemsInsertAfter(r: seq<int>, i: int, b: int)
    requires 0 <= i < |r|
    ensures Elems(InsertAfter(r, i, b)) == Elems(r) + {b}
  {
    var q := InsertAfter(r, i, b);
    assert q == r[..i + 1] + [b] + r[i + 1..];
    assert forall a :: a in r <==> a in r[..i + 1] || a in r[i + 1..] by {
      assert r == r[..i + 1] + r[i + 1..];
    }
  }

  /** Insertion adds exactly the one block and keeps the bit-prefix shape. */
  lemma {:induction false} InsertKeepsShape(t: Trie, b: int, s: nat, k: nat)
    requires Shape(t, k, Shr(s, k)) && b !in Members(t)
    ensures Shape(Insert(t, b, s, k), k, Shr(s, k))
    ensures Members(Insert(t, b, s, k)) == Members(t) + {b}
    decreases t
  {
    if t.Node? {
      if t.size == s {
        ElemsInsertAfter(t.ring, 0, b);
      } else {
        NextBit(s, k);
        if Shr(s, k - 1) % 2 == 0 { InsertKeepsShape(t.left, b, s, k - 1); }
        else { InsertKeepsShape(t.right, b, s, k - 1); }
      }
    }
  }

  /** One turn of the insertion loop: insertion at the subtree `cur` becomes insertion at its child. */
  lemma InsertDescend(t: Trie, h: int, g: int, b: int, s: nat, k: nat, c: int)
    requires Disjoint(t) && IsHead(t, h)
    requires Shape(Sub(t, h), k, Shr(s, k)) && Sub(t, h).size != s && k > 0
    requires c == Shr(s, k - 1) % 2
    requires var d := if c == 0 then Sub(t, h).left else Sub(t, h).right;
             d.Node? && |d.ring| > 0 && d.ring[0] == g
    ensures IsHead(t, g) && Shape(Sub(t, g), k - 1, Shr(s, k - 1))
    ensures Sub(t, g) == (if c == 0 then Sub(t, h).left else Sub(t, h).right)
    ensures Replace(t, h, Insert(Sub(t, h), b, s, k)) == Replace(t, g, Insert(Sub(t, g), b, s, k - 1))
  {
    NextBit(s, k);
    var cur := Sub(t, h);
    var d := if c == 0 then cur.left else cur.right;
    ReplaceMembers(t, h, cur);
    assert IsHead(cur, g);
    assert cur.ring[0] in Members(cur) && g in Members(d);
    if c == 1 && IsHead(cur.left, g) { HeadIsMember(cur.left, g); assert false; }
    ReplaceTwice(t, h, g, Insert(d, b, s, k - 1));
  }

  // ---------- changing one subtree in memory ----------

  /** `w` is one of the five link words of a block in `s`. */
  ghost predicate InNodes(s: set<int>, w: int)
  {
    exists a :: a in s && a + 16 <= w < a + 56
  }

  /** Only `slot` and link words of blocks in `s` may differ. */
  ghost predicate SameBut(m: Mem, m': Mem, slot: int, s: set<int>)
  {
    forall w :: w != slot && !InNodes(s, w) ==> Rd(m', w) == Rd(m, w)
  }

  ghost predicate SlotClear(slot: int, s: set<int>)
  {
    forall a :: a in s ==> slot < a || a + 56 <= slot
  }

  lemma NotInNodes(s: set<int>, a: int)
    requires Apart(s + {a}) && a !in s
    ensures forall w :: a <= w < a + 56 ==> !InNodes(s, w)
    ensures !InNodes(s, a)
  {
    forall c | c in s ensures c + 56 <= a || a + 56 <= c {
      assert c in s + {a};
    }
  }

  /** The slot of a head is not a word of its own subtree, nor of the blocks in `x`. */
  lemma SlotNotInside(t: Trie, slot: int, h: int, x: set<int>)
    requires IsHead(t, h) && Disjoint(t)
    requires Apart(Members(t) + x) && x !! (Members(t) - Members(Sub(t, h))) && SlotClear(slot, Members(t) + x)
    ensures SlotClear(SlotOf(t, slot, h), Members(Sub(t, h)) + x)
    ensures t.ring[0] != h ==> slot != SlotOf(t, slot, h)
  {
    SlotPlaced(t, slot, h);
    HeadIsMember(t, h);
    var s := SlotOf(t, slot, h);
    if !(s == slot && t.ring[0] == h) {
      var a, c :| a in Members(t) - Members(Sub(t, h)) && 0 <= c <= 1 && s == ChildSlot(a, c);
      assert a in Members(t) + x;
      forall e | e in Members(Sub(t, h)) + x ensures s < e || e + 56 <= s { assert e in Members(t) + x; }
    }
  }

  /** If only the slot of `h`, its subtree and the blocks `x` change, and the new subtree `n` lies
      there, then the new tree lies in the new memory. */
  lemma Graft(m: Mem, m': Mem, slot: int, t: Trie, h: int, n: Trie, x: set<int>)
    requires Rep(m, slot, t) && Disjoint(t) && IsHead(t, h)
    requires Apart(Members(t) + x) && x !! (Members(t) - Members(Sub(t, h))) && SlotClear(slot, Members(t) + x)
    requires SameBut(m, m', SlotOf(t, slot, h), Members(Sub(t, h)) + x)
    requires Rep(m', SlotOf(t, slot, h), n)
    ensures Rep(m', slot, Replace(t, h, n))
  {
    var s := SlotOf(t, slot, h);
    var inner := Members(Sub(t, h));
    HeadIsMember(t, h);
    SlotNotInside(t, slot, h, x);
    SlotPlaced(t, slot, h);
    forall a | a in Members(t) && a !in inner
      ensures SameNode(m, m', a)
      ensures ChildSlot(a, 0) != s ==> Child(m, a, 0) == Child(m', a, 0)
      ensures ChildSlot(a, 1) != s ==> Child(m, a, 1) == Child(m', a, 1)
    {
      assert (inner + x) + {a} <= Members(t) + x;
      NotInNodes(inner + x, a);
      SlotNotLinks(t, slot, h, a, x);
    }
    forall c | c in inner + x ensures !(c + 16 <= slot < c + 56) { assert c in Members(t) + x; }
    RepReplace(m, m', slot, t, h, n);
  }

  /** A slot is never the tag, ring or parent word of a block. */
  lemma SlotNotLinks(t: Trie, slot: int, h: int, a: int, x: set<int>)
    requires IsHead(t, h) && Disjoint(t) && Apart(Members(t) + x) && SlotClear(slot, Members(t) + x)
    requires a in Members(t)
    ensures var s := SlotOf(t, slot, h); s != a && s != a + 16 && s != a + 24 && s != a + 32
  {
    SlotPlaced(t, slot, h);
    HeadIsMember(t, h);
    var s := SlotOf(t, slot, h);
    assert a in Members(t) + x;
    if !(s == slot && t.ring[0] == h) {
      var e, c :| e in Members(t) - Members(Sub(t, h)) && 0 <= c <= 1 && s == ChildSlot(e, c);
      assert e in Members(t) + x;
    }
  }

  // ---------- insertion in memory ----------

  ghost predicate FreshLeaf(m: Mem, b: int, size: nat, slot: int)
  {
    && Tag(m, b) == size && Parent(m, b) == slot && Rd(m, slot) == b
    && PrevF(m, b) == b && NextF(m, b) == b && Child(m, b, 0) == 0 && Child(m, b, 1) == 0
  }

  lemma LeafRep(m: Mem, b: int, size: nat, slot: int)
    requires FreshLeaf(m, b, size, slot)
    ensures Rep(m, slot, Node([b], size, Nil, Nil))
  {
    var r := [b];
    assert Ring(m, r);
  }

  /** A subtree with head `h` when only child slot `c` of `h` and a foreign block `b` change. */
  lemma LocalLeaf(m: Mem, m': Mem, sh: int, cur: Trie, c: int, b: int, s: nat, n: Trie)
    requires Rep(m, sh, cur) && Disjoint(cur) && cur.Node? && 0 <= c <= 1
    requires Apart(Members(cur) + {b}) && b !in Members(cur) && SlotClear(sh, Members(cur) + {b})
    requires FreshLeaf(m', b, s, ChildSlot(cur.ring[0], c))
    requires forall w :: w != ChildSlot(cur.ring[0], c) && !(b + 16 <= w < b + 56) ==> Rd(m', w) == Rd(m, w)
    requires if c == 0 then cur.left == Nil && n == cur.(left := Node([b], s, Nil, Nil))
             else cur.right == Nil && n == cur.(right := Node([b], s, Nil, Nil))
    ensures Rep(m', sh, n)
  {
    var h := cur.ring[0];
    assert h in Elems(cur.ring);
    LeafRep(m', b, s, ChildSlot(h, c));
    OneSlotTouched(m, m', Members(cur), h, c, b);
    var o := if c == 0 then cur.right else cur.left;
    assert Rd(m', sh) == Rd(m, sh) by { assert h in Members(cur) + {b} && b in Members(cur) + {b}; }
    RepFrame(m, m', ChildSlot(h, 1 - c), o);
    assert RingOf(m', cur.ring, cur.size) by {
      forall a | a in cur.ring ensures SameNode(m, m', a) { assert a in Elems(cur.ring); }
      RingOfFrame(m, m', cur.ring, cur.size);
    }
  }

  lemma OneSlotTouched(m: Mem, m': Mem, ms: set<int>, h: int, c: int, b: int)
    requires Apart(ms + {b}) && b !in ms && h in ms && 0 <= c <= 1
    requires forall w :: w != ChildSlot(h, c) && !(b + 16 <= w < b + 56) ==> Rd(m', w) == Rd(m, w)
    ensures forall a :: a in ms ==> SameNode(m, m', a)
    ensures forall a :: a in ms && a != h ==> SameChildren(m, m', a)
    ensures Child(m, h, 1 - c) == Child(m', h, 1 - c)
  {
    forall a | a in ms ensures SameNode(m, m', a) && (a != h ==> SameChildren(m, m', a)) && (a + 56 <= b || b + 56 <= a) {
      assert a in ms + {b} && h in ms + {b} && b in ms + {b};
    }
  }

  /** The empty child slot `c` of head `h` receives `b`. */
  lemma InsertLeafRep(m: Mem, m': Mem, slot: int, t: Trie, h: int, c: int, b: int, s: nat, n: Trie)
    requires Rep(m, slot, t) && Disjoint(t) && IsHead(t, h) && 0 <= c <= 1
    requires Apart(Members(t) + {b}) && b !in Members(t) && SlotClear(slot, Members(t) + {b})
    requires FreshLeaf(m', b, s, ChildSlot(h, c))
    requires forall w :: w != ChildSlot(h, c) && !(b + 16 <= w < b + 56) ==> Rd(m', w) == Rd(m, w)
    requires var cur := Sub(t, h);
             if c == 0 then cur.left == Nil && n == cur.(left := Node([b], s, Nil, Nil))
             else cur.right == Nil && n == cur.(right := Node([b], s, Nil, Nil))
    ensures Rep(m', slot, Replace(t, h, n))
  {
    HeadIsMember(t, h);
    SubRep(m, slot, t, h);
    SlotNotInside(t, slot, h, {b});
    ReplaceMembers(t, h, n);
    assert Members(Sub(t, h)) + {b} <= Members(t) + {b};
    LocalLeaf(m, m', SlotOf(t, slot, h), Sub(t, h), c, b, s, n);
    assert SameBut(m, m', SlotOf(t, slot, h), Members(Sub(t, h)) + {b}) by {
      assert b in Members(Sub(t, h)) + {b};
    }
    Graft(m, m', slot, t, h, n, {b});
  }

  lemma LocalRing(m: Mem, m': Mem, sh: int, cur: Trie, b: int)
    requires Rep(m, sh, cur) && Disjoint(cur) && cur.Node?
    requires Apart(Members(cur) + {b}) && b !in Members(cur) && SlotClear(sh, Members(cur) + {b})
    requires Tag(m', b) == cur.size && Parent(m', b) == 0
    requires var h := cur.ring[0];
             && NextF(m', b) == NextF(m, h) && PrevF(m', b) == h
             && NextF(m', h) == b && PrevF(m', NextF(m, h)) == b
             && forall w :: w != h + 24 && w != NextF(m, h) + 16 && !(b + 16 <= w < b + 56) ==> Rd(m', w) == Rd(m, w)
    ensures Rep(m', sh, cur.(ring := InsertAfter(cur.ring, 0, b)))
  {
    var h, ring := cur.ring[0], cur.ring;
    RingLinked(m, ring, 0);
    var ms := Members(cur);
    assert h in Elems(ring) && After(ring, 0) in Elems(ring);
    RingTouched(m, m', ms, h, After(ring, 0), b);
    RingOfInsert(m, m', ring, cur.size, b);
    assert Rd(m', sh) == Rd(m, sh) by {
      assert h in ms + {b} && b in ms + {b} && After(ring, 0) in ms + {b};
    }
    forall a | a in Members(cur.left) + Members(cur.right) ensures SameNode(m, m', a) && SameChildren(m, m', a) {
      assert a !in Elems(ring);
    }
    assert SameChildren(m, m', h);
    RepFrame(m, m', ChildSlot(h, 0), cur.left);
    RepFrame(m, m', ChildSlot(h, 1), cur.right);
  }

  lemma RingOfInsert(m: Mem, m': Mem, ring: seq<int>, size: nat, b: int)
    requires RingOf(m, ring, size) && b !in ring
    requires Tag(m', b) == size && Parent(m', b) == 0
    requires NextF(m', b) == After(ring, 0) && PrevF(m', b) == ring[0]
    requires NextF(m', ring[0]) == b && PrevF(m', After(ring, 0)) == b
    requires forall a :: a in ring ==> Tag(m', a) == Tag(m, a) && Parent(m', a) == Parent(m, a)
    requires forall a :: a in ring && a != ring[0] ==> NextF(m', a) == NextF(m, a)
    requires forall a :: a in ring && a != After(ring, 0) ==> PrevF(m', a) == PrevF(m, a)
    ensures RingOf(m', InsertAfter(ring, 0, b), size)
  {
    RingInsert(m, m', ring, 0, b);
    ElemsInsertAfter(ring, 0, b);
    var q := InsertAfter(ring, 0, b);
    forall a | a in q ensures Tag(m', a) == size && (a != q[0] ==> Parent(m', a) == 0) {
      assert a in Elems(q);
    }
  }

  /** Writing the `next` word of `x` and the `prev` word of `y` leaves every other word. */
  lemma RingTouched(m: Mem, m': Mem, ms: set<int>, x: int, y: int, b: int)
    requires x in ms && y in ms && Apart(ms + {b}) && b !in ms
    requires forall w :: w != x + 24 && w != y + 16 && !(b + 16 <= w < b + 56) ==> Rd(m', w) == Rd(m, w)
    ensures forall a :: a in ms ==> Tag(m', a) == Tag(m, a) && Parent(m', a) == Parent(m, a) && SameChildren(m, m', a)
    ensures forall a :: a in ms && a != x ==> NextF(m', a) == NextF(m, a)
    ensures forall a :: a in ms && a != y ==> PrevF(m', a) == PrevF(m, a)
  {
    forall a | a in ms
      ensures Tag(m', a) == Tag(m, a) && Parent(m', a) == Parent(m, a) && SameChildren(m, m', a)
      ensures a != x ==> NextF(m', a) == NextF(m, a)
      ensures a != y ==> PrevF(m', a) == PrevF(m, a)
    {
      assert a in ms + {b} && x in ms + {b} && y in ms + {b} && b in ms + {b};
    }
  }

  /** `b` joins the ring of head `h`, right behind the head. */
  lemma InsertRingRep(m: Mem, m': Mem, slot: int, t: Trie, h: int, b: int, n: Trie)
    requires Rep(m, slot, t) && Disjoint(t) && IsHead(t, h)
    requires Apart(Members(t) + {b}) && b !in Members(t) && SlotClear(slot, Members(t) + {b})
    requires var cur := Sub(t, h); n == Node(InsertAfter(cur.ring, 0, b), cur.size, cur.left, cur.right)
    requires Tag(m', b) == Sub(t, h).size && Parent(m', b) == 0
    requires NextF(m', b) == NextF(m, h) && PrevF(m', b) == h
    requires NextF(m', h) == b && PrevF(m', NextF(m, h)) == b
    requires forall w :: w != h + 24 && w != NextF(m, h) + 16 && !(b + 16 <= w < b + 56) ==> Rd(m', w) == Rd(m, w)
    ensures Rep(m', slot, Replace(t, h, n))
  {
    var cur := Sub(t, h);
    HeadIsMember(t, h);
    SubRep(m, slot, t, h);
    SlotNotInside(t, slot, h, {b});
    ReplaceMembers(t, h, n);
    assert Members(cur) + {b} <= Members(t) + {b};
    LocalRing(m, m', SlotOf(t, slot, h), cur, b);
    RingLinked(m, cur.ring, 0);
    assert SameBut(m, m', SlotOf(t, slot, h), Members(cur) + {b}) by {
      assert b in Members(cur) + {b} && h in Members(cur) + {b} && NextF(m, h) in Members(cur) + {b};
    }
    Graft(m, m', slot, t, h, n, {b});
  }

  // ---------- removal ----------

  /** The leaf reached by always taking child 1 if there is one, else child 0. */
  ghost function Leaf(t: Trie): (n: Trie)
    requires t.Node?
    ensures n.Node? && n.left == Nil && n.right == Nil
  {
    if t.right.Node? then Leaf(t.right) else if t.left.Node? then Leaf(t.left) else t
  }

  lemma {:induction false} LeafIsHead(t: Trie)
    requires t.Node? && Disjoint(t)
    ensures |Leaf(t).ring| > 0 && IsHead(t, Leaf(t).ring[0]) && Sub(t, Leaf(t).ring[0]) == Leaf(t)
    ensures Members(Leaf(t)) <= Members(t) && Elems(Leaf(t).ring) == Members(Leaf(t))
  {
    if t.right.Node? {
      LeafIsHead(t.right);
      HeadIsMember(t.right, Leaf(t).ring[0]);
      assert t.ring[0] in Elems(t.ring);
      if IsHead(t.left, Leaf(t).ring[0]) { HeadIsMember(t.left, Leaf(t).ring[0]); assert false; }
    } else if t.left.Node? {
      LeafIsHead(t.left);
      HeadIsMember(t.left, Leaf(t).ring[0]);
      assert t.ring[0] in Elems(t.ring);
    }
  }

  lemma {:induction false} LeafFits(t: Trie, k: nat, p: nat)
    requires t.Node? && Shape(t, k, p)
    ensures Shr(Leaf(t).size, k) == p
    decreases t
  {
    if t.right.Node? {
      LeafFits(t.right, k - 1, 2 * p + 1);
      ShrStep(Leaf(t).size, k);
    } else if t.left.Node? {
      LeafFits(t.left, k - 1, 2 * p);
      ShrStep(Leaf(t).size, k);
    }
  }

  ghost function CutLeaf(t: Trie): Trie
    requires t.Node? && Disjoint(t)
  {
    LeafIsHead(t);
    Replace(t, Leaf(t).ring[0], Nil)
  }

  lemma CutLeafShape(t: Trie, k: nat, p: nat)
    requires t.Node? && Shape(t, k, p)
    ensures Disjoint(t) && Shape(CutLeaf(t), k, p)
    ensures Members(CutLeaf(t)) == Members(t) - Elems(Leaf(t).ring)
  {
    ShapeDisjoint(t, k, p);
    LeafIsHead(t);
    ReplaceMembers(t, Leaf(t).ring[0], Nil);
    ReplaceShape(t, Leaf(t).ring[0], Nil, k, p);
  }

  function IndexOf(r: seq<int>, b: int): (k: int)
    requires b in r
    ensures 0 <= k < |r| && r[k] == b
  {
    if r[0] == b then 0 else 1 + IndexOf(r[1..], b)
  }

  /** The ring that is left when its head goes: the block before the head takes over. */
  function NewRing(ring: seq<int>, b: int): (q: seq<int>)
    requires |ring| >= 2 && b in ring
    ensures |q| == |ring| - 1
  {
    if ring[0] == b then [ring[|ring| - 1]] + ring[1..|ring| - 1]
    else Drop(ring, IndexOf(ring, b))
  }

  /** The subtree that replaces a node when block `b` of its ring is removed: a longer ring loses
      `b`, a lone block is replaced by a leaf from below, or by nothing. */
  ghost function RemoveRoot(t: Trie, b: int): Trie
    requires t.Node? && Disjoint(t) && b in t.ring
  {
    if |t.ring| > 1 then t.(ring := NewRing(t.ring, b))
    else if t.right.Node? then Node(Leaf(t.right).ring, Leaf(t.right).size, t.left, CutLeaf(t.right))
    else if t.left.Node? then Node(Leaf(t.left).ring, Leaf(t.left).size, CutLeaf(t.left), Nil)
    else Nil
  }

  lemma NewRingElems(ring: seq<int>, b: int)
    requires |ring| >= 2 && Distinct(ring) && b in ring
    ensures Elems(NewRing(ring, b)) == Elems(ring) - {b}
    ensures Distinct(NewRing(ring, b))
    ensures ring[0] != b ==> NewRing(ring, b)[0] == ring[0]
  {
    var q := NewRing(ring, b);
    if ring[0] == b {
      assert ring == [b] + ring[1..|ring| - 1] + [ring[|ring| - 1]];
      forall a | a in Elems(ring) - {b} ensures a in q {
        var i :| 0 <= i < |ring| && ring[i] == a;
        if i == |ring| - 1 { assert q[0] == a; } else { assert q[i] == a; }
      }
    } else {
      var k := IndexOf(ring, b);
      forall a | a in Elems(ring) - {b} ensures a in q {
        var i :| 0 <= i < |ring| && ring[i] == a;
        assert q[if i < k then i else i - 1] == a;
      }
      forall a | a in q ensures a in ring && a != b {
        var i :| 0 <= i < |q| && q[i] == a;
        assert ring[if i < k then i else i + 1] == a;
      }
    }
  }

  /** Removal takes out exactly the one block and keeps the bit-prefix shape, at any place in a tree. */
  lemma RemoveRootKeepsShape(t: Trie, b: int, k: nat, p: nat)
    requires t.Node? && Shape(t, k, p) && Disjoint(t) && b in t.ring && Distinct(t.ring)
    ensures Shape(RemoveRoot(t, b), k, p)
    ensures Members(RemoveRoot(t, b)) == Members(t) - {b}
  {
    if |t.ring| > 1 {
      NewRingElems(t.ring, b);
    } else {
      assert t.ring == [b];
      if t.right.Node? {
        var u := t.right;
        CutLeafShape(u, k - 1, 2 * p + 1);
        LeafFits(u, k - 1, 2 * p + 1);
        LeafIsHead(u);
        ShrStep(Leaf(u).size, k);
      } else if t.left.Node? {
        var u := t.left;
        CutLeafShape(u, k - 1, 2 * p);
        LeafFits(u, k - 1, 2 * p);
        LeafIsHead(u);
        ShrStep(Leaf(u).size, k);
      }
    }
  }

  /** The head of the ring that holds `b`. */
  ghost function HeadOf(t: Trie, b: int): (h: int)
    requires b in Members(t) && Disjoint(t)
    ensures IsHead(t, h) && b in Sub(t, h).ring
  {
    if b in t.ring then t.ring[0]
    else
      var u := if b in Members(t.left) then t.left else t.right;
      var h := HeadOf(u, b);
      HeadIsMember(u, h);
      assert t.ring[0] in Elems(t.ring);
      assert u == t.right ==> !IsHead(t.left, h) by { HeadElsewhere(t.left, t.right, h); }
      h
  }

  lemma HeadElsewhere(l: Trie, r: Trie, h: int)
    requires Members(l) !! Members(r)
    ensures h in Members(r) ==> !IsHead(l, h)
  {
    if IsHead(l, h) && h in Members(r) { HeadIsMember(l, h); assert false; }
  }

  ghost function Remove(t: Trie, b: int): Trie
    requires b in Members(t) && Disjoint(t)
  {
    var h := HeadOf(t, b);
    ReplaceMembers(t, h, Nil);
    Replace(t, h, RemoveRoot(Sub(t, h), b))
  }

  lemma {:induction false} SubShape(t: Trie, h: int, k: nat, p: nat) returns (k': nat, p': nat)
    requires Shape(t, k, p) && IsHead(t, h)
    ensures Shape(Sub(t, h), k', p')
    decreases t
  {
    if t.ring[0] == h { k', p' := k, p; }
    else if IsHead(t.left, h) { k', p' := SubShape(t.left, h, k - 1, 2 * p); }
    else { k', p' := SubShape(t.right, h, k - 1, 2 * p + 1); }
  }

  lemma RemoveKeepsShape(t: Trie, b: int, k: nat, p: nat)
    requires Shape(t, k, p) && Disjoint(t) && b in Members(t)
    requires Distinct(Sub(t, HeadOf(t, b)).ring)
    ensures Shape(Remove(t, b), k, p)
    ensures Members(Remove(t, b)) == Members(t) - {b}
  {
    var h := HeadOf(t, b);
    var cur := Sub(t, h);
    ReplaceMembers(t, h, Nil);
    HeadIsMember(t, h);
    var n := RemoveRoot(cur, b);
    forall k': nat, p': nat | Shape(cur, k', p') ensures Shape(n, k', p') {
      RemoveRootKeepsShape(cur, b, k', p');
    }
    var k', p' := SubShape(t, h, k, p);
    RemoveRootKeepsShape(cur, b, k', p');
    ReplaceMembers(t, h, n);
    ReplaceShape(t, h, n, k, p);
  }

  // ---------- removal in memory ----------

  /** Unlinking ring member `k`, which is not the head. */
  lemma LocalDrop(m: Mem, m': Mem, sh: int, cur: Trie, k: int)
    requires Rep(m, sh, cur) && Disjoint(cur) && cur.Node? && Apart(Members(cur)) && SlotClear(sh, Members(cur))
    requires 1 <= k < |cur.ring|
    requires NextF(m', Before(cur.ring, k)) == After(cur.ring, k)
    requires PrevF(m', After(cur.ring, k)) == Before(cur.ring, k)
    requires forall w :: w != Before(cur.ring, k) + 24 && w != After(cur.ring, k) + 16 ==> Rd(m', w) == Rd(m, w)
    ensures Rep(m', sh, cur.(ring := Drop(cur.ring, k)))
  {
    var h, ring, ms := cur.ring[0], cur.ring, Members(cur);
    var x, y := Before(ring, k), After(ring, k);
    assert x in Elems(ring) && y in Elems(ring) && h in Elems(ring);
    UnlinkTouched(m, m', ms, x, y);
    RingOfDrop(m, m', ring, cur.size, k);
    assert SameChildren(m, m', h);
    forall a | a in Members(cur.left) + Members(cur.right) ensures SameNode(m, m', a) && SameChildren(m, m', a) {
      assert a !in Elems(ring);
    }
    RepFrame(m, m', ChildSlot(h, 0), cur.left);
    RepFrame(m, m', ChildSlot(h, 1), cur.right);
  }

  lemma RingOfDrop(m: Mem, m': Mem, ring: seq<int>, size: nat, k: int)
    requires RingOf(m, ring, size) && 1 <= k < |ring|
    requires NextF(m', Before(ring, k)) == After(ring, k) && PrevF(m', After(ring, k)) == Before(ring, k)
    requires forall a :: a in ring ==> Tag(m', a) == Tag(m, a) && Parent(m', a) == Parent(m, a)
    requires forall a :: a in ring && a != Before(ring, k) ==> NextF(m', a) == NextF(m, a)
    requires forall a :: a in ring && a != After(ring, k) ==> PrevF(m', a) == PrevF(m, a)
    ensures RingOf(m', Drop(ring, k), size)
  {
    RingRemove(m, m', ring, k);
    var q := Drop(ring, k);
    forall a | a in q ensures a in ring {
      var i :| 0 <= i < |q| && q[i] == a;
      assert ring[if i < k then i else i + 1] == a;
    }
  }

  lemma UnlinkTouched(m: Mem, m': Mem, ms: set<int>, x: int, y: int)
    requires x in ms && y in ms && Apart(ms)
    requires forall w :: w != x + 24 && w != y + 16 ==> Rd(m', w) == Rd(m, w)
    ensures forall a :: a in ms ==> Tag(m', a) == Tag(m, a) && Parent(m', a) == Parent(m, a) && SameChildren(m, m', a)
    ensures forall a :: a in ms && a != x ==> NextF(m', a) == NextF(m, a)
    ensures forall a :: a in ms && a != y ==> PrevF(m', a) == PrevF(m, a)
  {
  }

  ghost predicate SubstLeaves(sb: int, g: int, c0: int, c1: int, w: int)
  {
    && w != sb && w != g + 32 && w != ChildSlot(g, 0) && w != ChildSlot(g, 1)
    && (c0 != 0 ==> w != c0 + 32) && (c1 != 0 ==> w != c1 + 32)
  }

  /** What the `subst_block` code leaves behind: `g` stands where `b` stood. */
  ghost predicate Substituted(m: Mem, m': Mem, sb: int, b: int, g: int)
  {
    var c0, c1 := Child(m, b, 0), Child(m, b, 1);
    && Rd(m', sb) == g && Parent(m', g) == sb
    && Child(m', g, 0) == c0 && Child(m', g, 1) == c1
    && (c0 != 0 ==> Parent(m', c0) == ChildSlot(g, 0))
    && (c1 != 0 ==> Parent(m', c1) == ChildSlot(g, 1))
    && forall w :: SubstLeaves(sb, g, c0, c1, w) ==> Rd(m', w) == Rd(m, w)
  }

  /** After the substitution the ring of `g` heads the two subtrees that hung below `b`. */
  lemma LocalSubst(m: Mem, m': Mem, sb: int, b: int, ring: seq<int>, size: nat, l: Trie, r: Trie)
    requires RingOf(m, ring, size)
    requires Rep(m, ChildSlot(b, 0), l) && Rep(m, ChildSlot(b, 1), r) && Disjoint(l) && Disjoint(r)
    requires Elems(ring) !! Members(l) && Elems(ring) !! Members(r) && Members(l) !! Members(r)
    requires b !in Elems(ring) && b !in Members(l) && b !in Members(r)
    requires var all := Elems(ring) + Members(l) + Members(r) + {b};
             Apart(all) && SlotClear(sb, all) && 0 !in all
    requires Substituted(m, m', sb, b, ring[0])
    ensures Rep(m', sb, Node(ring, size, l, r))
  {
    var g := ring[0];
    var all := Elems(ring) + Members(l) + Members(r) + {b};
    assert g in all && g in Elems(ring);
    var c0, c1 := Child(m, b, 0), Child(m, b, 1);
    assert l.Node? ==> c0 == l.ring[0] && c0 in Members(l) && c0 in all;
    assert l.Nil? ==> c0 == 0;
    assert r.Node? ==> c1 == r.ring[0] && c1 in Members(r) && c1 in all;
    assert r.Nil? ==> c1 == 0;
    SubstTouched(m, m', sb, g, c0, c1, all);
    assert RingOf(m', ring, size) by {
      forall a | a in ring ensures SameLinks(m, m', a) && Tag(m', a) == size && (a != g ==> Parent(m', a) == 0) {
        assert a in Elems(ring) && a in all;
      }
      RingFrame(m, m', ring);
    }
    assert Rep(m', ChildSlot(g, 0), l) by { RepMove(m, m', ChildSlot(b, 0), ChildSlot(g, 0), l); }
    assert Rep(m', ChildSlot(g, 1), r) by { RepMove(m, m', ChildSlot(b, 1), ChildSlot(g, 1), r); }
  }

  lemma SubstTouched(m: Mem, m': Mem, sb: int, g: int, c0: int, c1: int, all: set<int>)
    requires Apart(all) && SlotClear(sb, all) && g in all
    requires (c0 != 0 ==> c0 in all) && (c1 != 0 ==> c1 in all)
    requires forall w :: SubstLeaves(sb, g, c0, c1, w) ==> Rd(m', w) == Rd(m, w)
    ensures forall a :: a in all ==> Tag(m', a) == Tag(m, a) && SameLinks(m, m', a)
    ensures forall a :: a in all && a != g ==> SameChildren(m, m', a)
    ensures forall a :: a in all && a != g && (c0 != 0 ==> a != c0) && (c1 != 0 ==> a != c1) ==> Parent(m', a) == Parent(m, a)
  {
  }

  /** Where the words touched by a substitution lie. */
  lemma SubstSameBut(m: Mem, m': Mem, sb: int, b: int, g: int, ms: set<int>)
    requires Substituted(m, m', sb, b, g) && g in ms
    requires var c0, c1 := Child(m, b, 0), Child(m, b, 1); (c0 != 0 ==> c0 in ms) && (c1 != 0 ==> c1 in ms)
    ensures SameBut(m, m', sb, ms)
  {
    var c0, c1 := Child(m, b, 0), Child(m, b, 1);
    forall w | w != sb && !InNodes(ms, w) ensures Rd(m', w) == Rd(m, w) {
      assert !(g + 16 <= w < g + 56);
      assert SubstLeaves(sb, g, c0, c1, w);
    }
  }

  lemma SameButTrans(m: Mem, m1: Mem, m': Mem, sb: int, s1: set<int>, s2: set<int>, s: set<int>)
    requires SameBut(m, m1, sb, s1) && SameBut(m1, m', sb, s2) && s1 <= s && s2 <= s
    ensures SameBut(m, m', sb, s)
  {
    forall w | w != sb && !InNodes(s, w) ensures Rd(m', w) == Rd(m, w) {
      assert !InNodes(s1, w) && !InNodes(s2, w);
    }
  }

  /** The head `b` of a longer ring goes: `m1` has it unlinked, `m'` has its predecessor in its place. */
  lemma LocalHeadSwap(m: Mem, m1: Mem, m': Mem, sb: int, cur: Trie)
    requires Rep(m, sb, cur) && Disjoint(cur) && cur.Node? && |cur.ring| >= 2
    requires Apart(Members(cur)) && SlotClear(sb, Members(cur)) && 0 !in Members(cur)
    requires var x, y := Before(cur.ring, 0), After(cur.ring, 0);
             && NextF(m1, x) == y && PrevF(m1, y) == x
             && forall w :: w != x + 24 && w != y + 16 ==> Rd(m1, w) == Rd(m, w)
    requires Substituted(m1, m', sb, cur.ring[0], Before(cur.ring, 0))
    ensures Rep(m', sb, cur.(ring := NewRing(cur.ring, cur.ring[0])))
    ensures SameBut(m, m', sb, Members(cur))
  {
    var b, ring, ms := cur.ring[0], cur.ring, Members(cur);
    var x := Before(ring, 0);
    var q := NewRing(ring, b);
    UnlinkHead(m, m1, sb, cur);
    SwapMembers(cur);
    LocalSubst(m1, m', sb, b, q, cur.size, cur.left, cur.right);
    HeadsIn(m1, b, cur);
    SubstSameBut(m1, m', sb, b, x, ms);
    SameButTrans(m, m1, m', sb, ms, ms, ms);
  }

  lemma SwapMembers(cur: Trie)
    requires cur.Node? && |cur.ring| >= 2 && Disjoint(cur) && Distinct(cur.ring)
    ensures var b := cur.ring[0];
            var q := NewRing(cur.ring, b);
            && |q| > 0 && Elems(q) !! Members(cur.left) && Elems(q) !! Members(cur.right) && b !in Elems(q)
            && b !in Members(cur.left) && b !in Members(cur.right)
            && Elems(q) + Members(cur.left) + Members(cur.right) + {b} == Members(cur)
            && q[0] == Before(cur.ring, 0) && q[0] in Members(cur)
  {
    NewRingElems(cur.ring, cur.ring[0]);
    assert cur.ring[0] in Elems(cur.ring) && Before(cur.ring, 0) in Elems(cur.ring);
  }

  lemma HeadsIn(m: Mem, b: int, cur: Trie)
    requires cur.Node? && Rep(m, ChildSlot(b, 0), cur.left) && Rep(m, ChildSlot(b, 1), cur.right)
    ensures var c0, c1 := Child(m, b, 0), Child(m, b, 1);
            (c0 != 0 ==> c0 in Members(cur)) && (c1 != 0 ==> c1 in Members(cur))
  {
    assert cur.left.Node? ==> cur.left.ring[0] in Elems(cur.left.ring);
    assert cur.right.Node? ==> cur.right.ring[0] in Elems(cur.right.ring);
  }

  lemma UnlinkHead(m: Mem, m1: Mem, sb: int, cur: Trie)
    requires Rep(m, sb, cur) && Disjoint(cur) && cur.Node? && |cur.ring| >= 2 && Apart(Members(cur))
    requires var x, y := Before(cur.ring, 0), After(cur.ring, 0);
             && NextF(m1, x) == y && PrevF(m1, y) == x
             && forall w :: w != x + 24 && w != y + 16 ==> Rd(m1, w) == Rd(m, w)
    ensures RingOf(m1, NewRing(cur.ring, cur.ring[0]), cur.size)
    ensures Rep(m1, ChildSlot(cur.ring[0], 0), cur.left) && Rep(m1, ChildSlot(cur.ring[0], 1), cur.right)
    ensures SameBut(m, m1, sb, Members(cur))
  {
    var b, ring, ms := cur.ring[0], cur.ring, Members(cur);
    var x, y := Before(ring, 0), After(ring, 0);
    assert x in Elems(ring) && y in Elems(ring) && b in Elems(ring);
    UnlinkTouched(m, m1, ms, x, y);
    HeadlessRing(m, m1, ring, cur.size);
    forall a | a in Members(cur.left) + Members(cur.right) ensures SameNode(m, m1, a) && SameChildren(m, m1, a) {
      assert a !in Elems(ring);
    }
    assert SameChildren(m, m1, b);
    RepFrame(m, m1, ChildSlot(b, 0), cur.left);
    RepFrame(m, m1, ChildSlot(b, 1), cur.right);
  }

  lemma HeadlessRing(m: Mem, m1: Mem, ring: seq<int>, size: nat)
    requires RingOf(m, ring, size) && |ring| >= 2
    requires NextF(m1, Before(ring, 0)) == After(ring, 0) && PrevF(m1, After(ring, 0)) == Before(ring, 0)
    requires forall a :: a in ring ==> Tag(m1, a) == Tag(m, a) && Parent(m1, a) == Parent(m, a)
    requires forall a :: a in ring && a != Before(ring, 0) ==> NextF(m1, a) == NextF(m, a)
    requires forall a :: a in ring && a != After(ring, 0) ==> PrevF(m1, a) == PrevF(m, a)
    ensures RingOf(m1, NewRing(ring, ring[0]), size)
  {
    RingRemove(m, m1, ring, 0);
    var r := Drop(ring, 0);
    RingRotate(m1, r);
    var q := NewRing(ring, ring[0]);
    assert q == [r[|r| - 1]] + r[..|r| - 1];
    NewRingElems(ring, ring[0]);
    forall a | a in q ensures a in ring && a != ring[0] { assert a in Elems(q); }
  }

  /** A lone block `b` with children goes: `m1` has the leaf's slot cleared, `m'` has the leaf in its place. */
  lemma LocalLeafSwap(m: Mem, m1: Mem, m': Mem, sb: int, cur: Trie, c: int)
    requires Rep(m, sb, cur) && Disjoint(cur) && cur.Node? && |cur.ring| == 1 && 0 <= c <= 1
    requires Apart(Members(cur)) && SlotClear(sb, Members(cur)) && 0 !in Members(cur)
    requires c == (if cur.right.Node? then 1 else 0)
    requires var u := if c == 1 then cur.right else cur.left;
             && u.Node? && |Leaf(u).ring| > 0 && IsHead(u, Leaf(u).ring[0])
             && m1 == Wr(m, SlotOf(u, ChildSlot(cur.ring[0], c), Leaf(u).ring[0]), 0)
             && Substituted(m1, m', sb, cur.ring[0], Leaf(u).ring[0])
    ensures Rep(m', sb, RemoveRoot(cur, cur.ring[0]))
    ensures SameBut(m, m', sb, Members(cur))
  {
    hide RingOf, Ring, IsHead, SlotOf, Sub;
    var b, ms := cur.ring[0], Members(cur);
    var u, o := if c == 1 then cur.right else cur.left, if c == 1 then cur.left else cur.right;
    CutInMemory(m, m1, b, c, u, o, cur);
    var n := RemoveRoot(cur, b);
    CutMembers(cur, c);
    hide Leaf, CutLeaf, Substituted, SameBut;
    LocalSubst(m1, m', sb, b, n.ring, n.size, n.left, n.right);
    HeadsIn(m1, b, n);
    assert n.ring[0] in Elems(n.ring);
    SubstSameBut(m1, m', sb, b, n.ring[0], ms);
    SameButTrans(m, m1, m', sb, ms, ms, ms);
  }

  lemma CutMembers(cur: Trie, c: int)
    requires cur.Node? && |cur.ring| == 1 && Disjoint(cur) && c == (if cur.right.Node? then 1 else 0)
    requires (if c == 1 then cur.right else cur.left).Node?
    ensures var n := RemoveRoot(cur, cur.ring[0]);
            && n.Node? && Disjoint(n) && |n.ring| > 0 && cur.ring[0] !in Members(n)
            && Members(n) + {cur.ring[0]} == Members(cur)
            && n.ring == Leaf(if c == 1 then cur.right else cur.left).ring
            && n.size == Leaf(if c == 1 then cur.right else cur.left).size
  {
    var u := if c == 1 then cur.right else cur.left;
    LeafIsHead(u);
    ReplaceMembers(u, Leaf(u).ring[0], Nil);
    DisjointCut(u);
    assert Elems(cur.ring) == {cur.ring[0]};
  }

  lemma {:induction false} DisjointReplaceNil(t: Trie, h: int)
    requires Disjoint(t) && IsHead(t, h)
    ensures Disjoint(Replace(t, h, Nil))
  {
    if t.ring[0] != h {
      if IsHead(t.left, h) { DisjointReplaceNil(t.left, h); ReplaceMembers(t.left, h, Nil); }
      else { DisjointReplaceNil(t.right, h); ReplaceMembers(t.right, h, Nil); }
    }
  }

  lemma DisjointCut(u: Trie)
    requires u.Node? && Disjoint(u)
    ensures Disjoint(CutLeaf(u))
  {
    LeafIsHead(u);
    DisjointReplaceNil(u, Leaf(u).ring[0]);
  }

  /** Clearing the slot of the leaf cuts it out of its tree and leaves its ring and the other tree. */
  lemma CutInMemory(m: Mem, m1: Mem, b: int, c: int, u: Trie, o: Trie, cur: Trie)
    requires cur.Node? && |cur.ring| > 0 && b == cur.ring[0] && 0 <= c <= 1 && Disjoint(cur) && Apart(Members(cur))
    requires u == (if c == 1 then cur.right else cur.left) && o == (if c == 1 then cur.left else cur.right)
    requires Rep(m, ChildSlot(b, c), u) && Rep(m, ChildSlot(b, 1 - c), o)
    requires u.Node? && |Leaf(u).ring| > 0 && IsHead(u, Leaf(u).ring[0])
    requires m1 == Wr(m, SlotOf(u, ChildSlot(b, c), Leaf(u).ring[0]), 0)
    ensures Rep(m1, ChildSlot(b, c), CutLeaf(u)) && Rep(m1, ChildSlot(b, 1 - c), o)
    ensures RingOf(m1, Leaf(u).ring, Leaf(u).size)
    ensures forall sb :: SameBut(m, m1, sb, Members(cur))
  {
    hide RingOf, Ring, IsHead, SlotOf, Sub, Leaf;
    var lf := Leaf(u);
    var g := lf.ring[0];
    LeafIsHead(u);
    var rp := SlotOf(u, ChildSlot(b, c), g);
    assert b in Elems(cur.ring);
    var e, d := CutSlot(b, c, u, cur);
    OneSlotCleared(m, m1, Members(cur), e, d);
    assert Members(u) <= Members(cur) && Members(o) <= Members(cur) && b in Members(cur);
    assert Members(u) + {} == Members(u);
    Graft(m, m1, ChildSlot(b, c), u, g, Nil, {});
    RepFrame(m, m1, ChildSlot(b, 1 - c), o);
    SubRep(m, ChildSlot(b, c), u, g);
    forall a | a in lf.ring ensures SameNode(m, m1, a) { assert a in Elems(lf.ring); assert a in Members(cur); }
    RingOfFrame(m, m1, lf.ring, lf.size);
    assert InNodes(Members(cur), rp);
  }

  /** The slot of the leaf is a child word of `b` or of a block above the leaf. */
  lemma CutSlot(b: int, c: int, u: Trie, cur: Trie) returns (e: int, d: int)
    requires cur.Node? && |cur.ring| > 0 && b == cur.ring[0] && 0 <= c <= 1 && Disjoint(cur) && Apart(Members(cur))
    requires u == (if c == 1 then cur.right else cur.left)
    requires u.Node? && |Leaf(u).ring| > 0 && IsHead(u, Leaf(u).ring[0])
    ensures SlotOf(u, ChildSlot(b, c), Leaf(u).ring[0]) == ChildSlot(e, d) && 0 <= d <= 1
    ensures e in Members(cur) && e !in Members(Leaf(u))
    ensures (e == b && d == c) || e in Members(u)
    ensures SlotClear(ChildSlot(b, c), Members(u))
  {
    var g := Leaf(u).ring[0];
    assert b in Elems(cur.ring);
    LeafIsHead(u);
    HeadIsMember(u, g);
    SlotPlaced(u, ChildSlot(b, c), g);
    e, d := SlotOwner(u, ChildSlot(b, c), g, b, c);
  }

  lemma OneSlotCleared(m: Mem, m1: Mem, ms: set<int>, e: int, d: int)
    requires Apart(ms) && e in ms && 0 <= d <= 1 && m1 == Wr(m, ChildSlot(e, d), 0)
    ensures forall a :: a in ms ==> SameNode(m, m1, a)
    ensures forall a :: a in ms && a != e ==> SameChildren(m, m1, a)
    ensures Child(m, e, 1 - d) == Child(m1, e, 1 - d)
  {
  }

  lemma SlotOwner(u: Trie, slot: int, g: int, b: int, c: int) returns (e: int, d: int)
    requires IsHead(u, g) && 0 <= c <= 1 && slot == ChildSlot(b, c) && SlotPlace(u, slot, g, SlotOf(u, slot, g))
    requires b !in Members(u)
    ensures SlotOf(u, slot, g) == ChildSlot(e, d) && 0 <= d <= 1 && ((e == b && d == c) || e in Members(u))
    ensures e !in Members(Sub(u, g))
  {
    HeadIsMember(u, g);
    var s := SlotOf(u, slot, g);
    if s == slot && u.ring[0] == g { e, d := b, c; }
    else { e, d :| e in Members(u) - Members(Sub(u, g)) && 0 <= d <= 1 && s == ChildSlot(e, d); }
  }

  /** Child words are zero exactly where the tree has no child. */
  lemma LoneChildren(m: Mem, sl: int, cur: Trie)
    requires Rep(m, sl, cur) && cur.Node? && 0 !in Members(cur)
    ensures var b := cur.ring[0];
            && (Child(m, b, 0) == 0 <==> cur.left.Nil?) && (Child(m, b, 1) == 0 <==> cur.right.Nil?)
            && (cur.left.Node? ==> |cur.left.ring| > 0 && Child(m, b, 0) == cur.left.ring[0])
            && (cur.right.Node? ==> |cur.right.ring| > 0 && Child(m, b, 1) == cur.right.ring[0])
  {
    hide RingOf;
    assert cur.left.Node? ==> cur.left.ring[0] in Elems(cur.left.ring);
    assert cur.right.Node? ==> cur.right.ring[0] in Elems(cur.right.ring);
  }

  lemma ChildHead(cur: Trie, c: int, n: Trie)
    requires cur.Node? && Disjoint(cur) && 0 <= c <= 1 && n == (if c == 1 then cur.right else cur.left) && n.Node?
    ensures |n.ring| > 0 && IsHead(cur, n.ring[0]) && Sub(cur, n.ring[0]) == n
  {
    assert n.ring[0] in Elems(n.ring) && cur.ring[0] in Elems(cur.ring);
    if c == 1 { HeadElsewhere(cur.left, cur.right, n.ring[0]); }
  }

  /** A step down from head `prev` to its child `c`. */
  lemma ChildTurn(m: Mem, slot: int, u: Trie, prev: int, cur: Trie, c: int)
    requires Rep(m, slot, u) && Disjoint(u) && IsHead(u, prev) && Sub(u, prev) == cur && 0 <= c <= 1
    requires (if c == 1 then cur.right else cur.left).Node?
    ensures var n := if c == 1 then cur.right else cur.left;
            var cp := ChildSlot(prev, c);
            && Rep(m, cp, n) && |n.ring| > 0 && Rd(m, cp) == n.ring[0] && IsHead(u, n.ring[0]) && Sub(u, n.ring[0]) == n
            && cp == SlotOf(u, slot, n.ring[0])
  {
    hide RingOf;
    SubRep(m, slot, u, prev);
    var n := if c == 1 then cur.right else cur.left;
    var g := n.ring[0];
    ReplaceMembers(u, prev, Nil);
    ChildHead(cur, c, n);
    hide Disjoint, Members, Replace, SlotOf, IsHead, Sub;
    ReplaceTwice(u, prev, g, Nil);
    SubRep(m, slot, u, g);
  }

  /** The block behind a head in its ring, which is what the searches return. */
  lemma NextOfHead(m: Mem, slot: int, t: Trie, h: int)
    requires Rep(m, slot, t) && IsHead(t, h)
    ensures NextF(m, h) in Members(t) && Tag(m, NextF(m, h)) == Tag(m, h) && Tag(m, h) == Sub(t, h).size
  {
    SubRep(m, slot, t, h);
    HeadIsMember(t, h);
    var r := Sub(t, h).ring;
    RingLinked(m, r, 0);
    assert NextF(m, h) in Elems(r) && NextF(m, h) in Members(Sub(t, h));
  }
}
