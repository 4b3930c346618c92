/** The bitwise tries of large free blocks: their shape as values, and how a trie lies in memory
    through parent slots, child slots and one ring of equal-sized blocks per node. */
module Trie {
  import opened Words
  import opened Memory

  /** `ring[0]` is the block linked into the tree; the rest of the ring has the same size. */
  datatype Trie = Nil | Node(ring: seq<int>, size: nat, left: Trie, right: Trie)

  function Elems(r: seq<int>): set<int> { set a | a in r }

  function Members(t: Trie): set<int>
  {
    match t
    case Nil => {}
    case Node(ring, _, l, r) => Elems(ring) + Members(l) + Members(r)
  }

  /** All sizes below agree with the prefix `p` once their low `k` bits are dropped, a node's
      children split on the next bit, and no block occurs twice. */
  ghost predicate Shape(t: Trie, k: nat, p: nat)
    decreases t
  {
    match t
    case Nil => true
    case Node(ring, size, l, r) =>
      && |ring| > 0 && Shr(size, k) == p
      && Elems(ring) !! Members(l) && Elems(ring) !! Members(r) && Members(l) !! Members(r)
      && (k == 0 ==> l == Nil && r == Nil)
      && (k > 0 ==> Shape(l, k - 1, 2 * p) && Shape(r, k - 1, 2 * p + 1))
  }

  ghost predicate Disjoint(t: Trie)
  {
    match t
    case Nil => true
    case Node(ring, _, l, r) =>
      && |ring| > 0
      && Elems(ring) !! Members(l) && Elems(ring) !! Members(r) && Members(l) !! Members(r)
      && Disjoint(l) && Disjoint(r)
  }

  lemma {:induction false} ShapeDisjoint(t: Trie, k: nat, p: nat)
    requires Shape(t, k, p)
    ensures Disjoint(t)
    decreases t
  {
    if t.Node? && k > 0 {
      ShapeDisjoint(t.left, k - 1, 2 * p);
      ShapeDisjoint(t.right, k - 1, 2 * p + 1);
    }
  }

  // ---------- subtrees named by their head block ----------

  ghost predicate IsHead(t: Trie, h: int)
  {
    t.Node? && |t.ring| > 0 && (t.ring[0] == h || IsHead(t.left, h) || IsHead(t.right, h))
  }

  ghost function Sub(t: Trie, h: int): (s: Trie)
    requires IsHead(t, h)
    ensures s.Node? && |s.ring| > 0 && s.ring[0] == h
  {
    if t.ring[0] == h then t else if IsHead(t.left, h) then Sub(t.left, h) else Sub(t.right, h)
  }

  ghost function Replace(t: Trie, h: int, n: Trie): Trie
    requires IsHead(t, h)
  {
    if t.ring[0] == h then n
    else if IsHead(t.left, h) then t.(left := Replace(t.left, h, n))
    else t.(right := Replace(t.right, h, n))
  }

  lemma {:induction false} HeadIsMember(t: Trie, h: int)
    requires IsHead(t, h)
    ensures h in Members(t) && Members(Sub(t, h)) <= Members(t) && h in Members(Sub(t, h))
  {
    if t.ring[0] == h {
    } else if IsHead(t.left, h) { HeadIsMember(t.left, h); }
    else { HeadIsMember(t.right, h); }
  }

  lemma {:induction false} ReplaceMembers(t: Trie, h: int, n: Trie)
    requires Disjoint(t) && IsHead(t, h)
    ensures Members(Replace(t, h, n)) == (Members(t) - Members(Sub(t, h))) + Members(n)
    ensures Disjoint(Sub(t, h))
  {
    if t.ring[0] == h {
    } else if IsHead(t.left, h) {
      ReplaceMembers(t.left, h, n);
      HeadIsMember(t.left, h);
    } else {
      ReplaceMembers(t.right, h, n);
      HeadIsMember(t.right, h);
    }
  }

  lemma {:induction false} ReplaceTwice(t: Trie, h: int, g: int, n: Trie)
    requires Disjoint(t) && IsHead(t, h) && IsHead(Sub(t, h), g)
    ensures IsHead(t, g)
    ensures Sub(t, g) == Sub(Sub(t, h), g)
    ensures Replace(t, h, Replace(Sub(t, h), g, n)) == Replace(t, g, n)
  {
    if t.ring[0] != h {
      HeadIsMember(Sub(t, h), g);
      if IsHead(t.left, h) {
        HeadIsMember(t.left, h);
        ReplaceTwice(t.left, h, g, n);
        HeadIsMember(t.left, g);
      } else {
        HeadIsMember(t.right, h);
        ReplaceTwice(t.right, h, g, n);
        HeadIsMember(t.right, g);
        if IsHead(t.left, g) { HeadIsMember(t.left, g); assert false; }
      }
    }
  }

  lemma {:induction false} ReplaceShape(t: Trie, h: int, n: Trie, k: nat, p: nat)
    requires Shape(t, k, p) && IsHead(t, h)
    requires Members(n) !! (Members(t) - Members(Sub(t, h)))
    requires forall k': nat, p': nat :: Shape(Sub(t, h), k', p') ==> Shape(n, k', p')
    ensures Shape(Replace(t, h, n), k, p)
    decreases t
  {
    ShapeDisjoint(t, k, p);
    if t.ring[0] == h {
    } else {
      if IsHead(t.left, h) {
        HeadIsMember(t.left, h);
        ReplaceMembers(t.left, h, n);
        ReplaceShape(t.left, h, n, k - 1, 2 * p);
      } else {
        HeadIsMember(t.right, h);
        ReplaceMembers(t.right, h, n);
        ReplaceShape(t.right, h, n, k - 1, 2 * p + 1);
      }
    }
  }

  // ---------- the trie in memory ----------

  /** Blocks in a trie are large, so their link words never meet. */
  ghost predicate Apart(s: set<int>)
  {
    forall a, b :: a in s && b in s && a != b ==> a + 56 <= b || b + 56 <= a
  }

  ghost predicate RingOf(m: Mem, ring: seq<int>, size: nat)
  {
    && Ring(m, ring)
    && (forall a :: a in ring ==> Tag(m, a) == size)
    && (forall a :: a in ring && a != ring[0] ==> Parent(m, a) == 0)
  }

  ghost predicate Rep(m: Mem, slot: int, t: Trie)
    decreases t
  {
    match t
    case Nil => Rd(m, slot) == 0
    case Node(ring, size, l, r) =>
      && |ring| > 0
      && Rd(m, slot) == ring[0] && Parent(m, ring[0]) == slot
      && RingOf(m, ring, size)
      && Rep(m, ChildSlot(ring[0], 0), l) && Rep(m, ChildSlot(ring[0], 1), r)
  }

  ghost predicate SameNode(m: Mem, m': Mem, a: int)
  {
    && Tag(m, a) == Tag(m', a) && PrevF(m, a) == PrevF(m', a) && NextF(m, a) == NextF(m', a)
    && Parent(m, a) == Parent(m', a)
  }

  ghost predicate SameChildren(m: Mem, m': Mem, a: int)
  {
    Child(m, a, 0) == Child(m', a, 0) && Child(m, a, 1) == Child(m', a, 1)
  }

  lemma RingOfFrame(m: Mem, m': Mem, ring: seq<int>, size: nat)
    requires RingOf(m, ring, size)
    requires forall a :: a in ring ==> SameNode(m, m', a)
    ensures RingOf(m', ring, size)
  {
    forall a | a in ring ensures SameLinks(m, m', a) && Tag(m', a) == size {
      assert SameNode(m, m', a);
    }
    RingFrame(m, m', ring);
    forall a | a in ring && a != ring[0] ensures Parent(m', a) == 0 {
      assert SameNode(m, m', a);
    }
  }

  lemma {:induction false} RepFrame(m: Mem, m': Mem, slot: int, t: Trie)
    requires Rep(m, slot, t) && Rd(m, slot) == Rd(m', slot)
    requires forall a :: a in Members(t) ==> SameNode(m, m', a) && SameChildren(m, m', a)
    ensures Rep(m', slot, t)
    decreases t
  {
    if t.Node? {
      assert t.ring[0] in Members(t);
      assert SameNode(m, m', t.ring[0]) && SameChildren(m, m', t.ring[0]);
      RingOfFrame(m, m', t.ring, t.size);
      RepFrame(m, m', ChildSlot(t.ring[0], 0), t.left);
      RepFrame(m, m', ChildSlot(t.ring[0], 1), t.right);
    }
  }

  /** Rehang a subtree under another slot: only the new slot and the head's parent word change. */
  lemma {:induction false} RepMove(m: Mem, m': Mem, slot: int, slot': int, t: Trie)
    requires Rep(m, slot, t) && Disjoint(t) && Rd(m, slot) == Rd(m', slot')
    requires t.Node? ==> Parent(m', t.ring[0]) == slot'
    requires forall a :: a in Members(t) ==>
               && Tag(m, a) == Tag(m', a) && SameLinks(m, m', a) && SameChildren(m, m', a)
               && (t.Node? && a != t.ring[0] ==> Parent(m, a) == Parent(m', a))
    ensures Rep(m', slot', t)
  {
    if t.Node? {
      var h := t.ring[0];
      assert h in Members(t);
      assert SameChildren(m, m', h);
      assert RingOf(m', t.ring, t.size) by {
        RingFrame(m, m', t.ring);
      }
      RepFrame(m, m', ChildSlot(h, 0), t.left);
      RepFrame(m, m', ChildSlot(h, 1), t.right);
    }
  }

  /** The slot that points at head `h`. */
  ghost function SlotOf(t: Trie, slot: int, h: int): int
    requires IsHead(t, h)
  {
    if t.ring[0] == h then slot
    else if IsHead(t.left, h) then SlotOf(t.left, ChildSlot(t.ring[0], 0), h)
    else SlotOf(t.right, ChildSlot(t.ring[0], 1), h)
  }

  lemma {:induction false} SubRep(m: Mem, slot: int, t: Trie, h: int)
    requires Rep(m, slot, t) && IsHead(t, h)
    ensures Rep(m, SlotOf(t, slot, h), Sub(t, h))
    ensures Parent(m, h) == SlotOf(t, slot, h)
    decreases t
  {
    if t.ring[0] != h {
      if IsHead(t.left, h) { SubRep(m, ChildSlot(t.ring[0], 0), t.left, h); }
      else { SubRep(m, ChildSlot(t.ring[0], 1), t.right, h); }
    }
  }

  /** The slot of a head is the root slot, or a child slot of a block outside its subtree. */
  ghost predicate SlotPlace(t: Trie, slot: int, h: int, s: int)
    requires IsHead(t, h)
  {
    || (s == slot && t.ring[0] == h)
    || (exists a, c :: a in Members(t) - Members(Sub(t, h)) && 0 <= c <= 1 && s == ChildSlot(a, c))
  }

  lemma {:induction false} SlotPlaced(t: Trie, slot: int, h: int)
    requires IsHead(t, h) && Disjoint(t)
    ensures SlotPlace(t, slot, h, SlotOf(t, slot, h))
    decreases t
  {
    if t.ring[0] != h {
      var g := t.ring[0];
      assert g in Members(t);
      var c := if IsHead(t.left, h) then 0 else 1;
      var u := if c == 0 then t.left else t.right;
      HeadIsMember(u, h);
      SlotPlaced(u, ChildSlot(g, c), h);
      var s := SlotOf(u, ChildSlot(g, c), h);
      if s == ChildSlot(g, c) && u.ring[0] == h {
        assert g in Members(t) - Members(Sub(t, h));
      } else {
        var a, d :| a in Members(u) - Members(Sub(u, h)) && 0 <= d <= 1 && s == ChildSlot(a, d);
        assert a in Members(t) - Members(Sub(t, h));
      }
    }
  }

  /** Everything of the tree outside the subtree at `h` is as before, save the slot of `h`. */
  ghost predicate SameOutside(m: Mem, m': Mem, t: Trie, inner: set<int>, s: int)
  {
    forall a :: a in Members(t) && a !in inner ==>
      && SameNode(m, m', a)
      && (ChildSlot(a, 0) != s ==> Child(m, a, 0) == Child(m', a, 0))
      && (ChildSlot(a, 1) != s ==> Child(m, a, 1) == Child(m', a, 1))
  }

  /** A tree whose child slots cannot be `s` is unaffected. */
  lemma UntouchedTree(m: Mem, m': Mem, slot: int, t: Trie, inner: set<int>, s: int)
    requires Rep(m, slot, t) && Rd(m, slot) == Rd(m', slot)
    requires Members(t) !! inner && SameOutside(m, m', t, inner, s)
    requires forall a :: a in Members(t) ==> ChildSlot(a, 0) != s && ChildSlot(a, 1) != s
    ensures Rep(m', slot, t)
  {
    RepFrame(m, m', slot, t);
  }

  /** Swap the subtree at `h` for `n`: if `n` lies in the new memory under the slot of `h` and the
      rest is untouched, the whole new tree lies in the new memory. */
  lemma {:induction false} RepReplace(m: Mem, m': Mem, slot: int, t: Trie, h: int, n: Trie)
    requires Rep(m, slot, t) && Disjoint(t) && IsHead(t, h) && Apart(Members(t))
    requires Rep(m', SlotOf(t, slot, h), n)
    requires SameOutside(m, m', t, Members(Sub(t, h)), SlotOf(t, slot, h))
    requires slot != SlotOf(t, slot, h) ==> Rd(m, slot) == Rd(m', slot)
    requires t.ring[0] != h ==> slot != SlotOf(t, slot, h)
    requires forall a :: a in Members(t) ==> slot < a || a + 56 <= slot
    ensures Rep(m', slot, Replace(t, h, n))
    decreases t
  {
    if t.ring[0] != h {
      var g := t.ring[0];
      var s := SlotOf(t, slot, h);
      var inner := Members(Sub(t, h));
      var c := if IsHead(t.left, h) then 0 else 1;
      var u, v := if c == 0 then t.left else t.right, if c == 0 then t.right else t.left;
      HeadIsMember(u, h);
      SlotPlaced(u, ChildSlot(g, c), h);
      assert g in Members(t) && g !in Members(u);
      SlotApart(t, u, v, g, c, h, s);
      assert SameOutside(m, m', u, inner, s);
      assert SameOutside(m, m', v, inner, s);
      UntouchedTree(m, m', ChildSlot(g, 1 - c), v, inner, s);
      RepReplace(m, m', ChildSlot(g, c), u, h, n);
      assert RingOf(m', t.ring, t.size) by {
        forall a | a in t.ring ensures SameNode(m, m', a) { assert a in Members(t); }
        RingOfFrame(m, m', t.ring, t.size);
      }
    }
  }

  lemma SlotApart(t: Trie, u: Trie, v: Trie, g: int, c: int, h: int, s: int)
    requires t.Node? && |t.ring| > 0 && Disjoint(t) && Apart(Members(t)) && g == t.ring[0]
    requires 0 <= c <= 1 && u == (if c == 0 then t.left else t.right) && v == (if c == 0 then t.right else t.left)
    requires IsHead(u, h) && SlotPlace(u, ChildSlot(g, c), h, s)
    ensures forall a :: a in Members(v) ==> ChildSlot(a, 0) != s && ChildSlot(a, 1) != s
    ensures s != ChildSlot(g, 1 - c)
    ensures u.ring[0] != h ==> s != ChildSlot(g, c)
    ensures forall a :: a in Members(u) ==> ChildSlot(g, c) < a || a + 56 <= ChildSlot(g, c)
  {
    HeadIsMember(u, h);
    assert g in Members(t);
    var o := if s == ChildSlot(g, c) && u.ring[0] == h then g
             else (var a, d :| a in Members(u) - Members(Sub(u, h)) && 0 <= d <= 1 && s == ChildSlot(a, d); a);
    assert o in Members(t);
  }
}
