/** What the link writes of the free-list operations do to the whole index. */
module IndexOps {
  import opened Words
  import opened Memory
  import opened Trie
  import opened TrieOps
  import opened Index

  /** Link words of distinct list members never meet. */
  ghost predicate LinksApart(s: set<int>)
  {
    forall a, b :: a in s && b in s && a != b ==> a + 16 <= b || b + 16 <= a
  }

  function Splice(m: Mem, prev: int, next: int, b: int): Mem
  {
    Wr(Wr(Wr(Wr(m, b + 16, prev), b + 24, next), next + 16, b), prev + 24, b)
  }

  function Unlink(m: Mem, prev: int, next: int): Mem
  {
    Wr(Wr(m, prev + 24, next), next + 16, prev)
  }

  lemma SpliceRing(m: Mem, q: seq<int>, i: int, b: int)
    requires Ring(m, q) && 0 <= i < |q| && b !in q && LinksApart(Elems(q) + {b})
    ensures Ring(Splice(m, q[i], After(q, i), b), InsertAfter(q, i, b))
  {
    var x, y := q[i], After(q, i);
    var m' := Splice(m, x, y, b);
    assert x in Elems(q) + {b} && y in Elems(q) + {b} && b in Elems(q) + {b};
    forall a | a in q ensures a in Elems(q) + {b} { }
    hide Ring;
    RingInsert(m, m', q, i, b);
  }

  lemma UnlinkRing(m: Mem, q: seq<int>, k: int)
    requires Ring(m, q) && 0 <= k < |q| && |q| >= 2 && LinksApart(Elems(q))
    ensures Ring(Unlink(m, Before(q, k), After(q, k)), Drop(q, k))
  {
    var x, y := Before(q, k), After(q, k);
    var m' := Unlink(m, x, y);
    assert x in Elems(q) && y in Elems(q);
    forall a | a in q ensures a in Elems(q) { }
    hide Ring;
    RingRemove(m, m', q, k);
  }

  ghost predicate ListHead(h: int, g: Loc, head: int)
  {
    GoodLoc(g) && !g.InTrie? && head == (if g.InRest? then RestHead(h) else SmallHead(h, g.i))
  }

  /** Sentinel, members and a foreign block of one list keep their link words apart. */
  lemma ListApart(h: int, x: Index, g: Loc, head: int, r: seq<int>, b: int, n: int)
    requires Spread(h, x.size) && OwnBlock(h, x, g, b, n) && ListHead(h, g, head)
    requires forall a :: a in r ==> a in x.size
    ensures LinksApart(Elems([head] + r) + {b})
    ensures b != head
  {
    if b !in x.size { assert b in x.size[b := n]; }
    forall a | a in r && b !in x.size ensures a + 16 <= b || b + 16 <= a {
      assert a in x.size[b := n];
    }
  }

  lemma LinkWordsInGroup(h: int, x: Index, g: Loc, head: int, r: seq<int>, a: int)
    requires Spread(h, x.size) && ListHead(h, g, head)
    requires forall c :: c in r ==> c in x.size && c in x.loc && x.loc[c] == g
    requires a in [head] + r
    ensures GroupWord(h, x, g, a + 16) && GroupWord(h, x, g, a + 24)
  {
    if a != head { assert a in r && x.size[a] >= MIN_BLOCK; }
  }

  lemma SpliceOnly(m: Mem, h: int, x: Index, g: Loc, head: int, r: seq<int>, i: int, b: int, n: int)
    requires Spread(h, x.size) && ListHead(h, g, head) && Ring(m, [head] + r) && 0 <= i <= |r| && n >= MIN_BLOCK
    requires forall c :: c in r ==> c in x.size && c in x.loc && x.loc[c] == g
    ensures var q := [head] + r; OnlyGroup(m, Splice(m, q[i], After(q, i), b), h, x, g, b, n)
  {
    var q := [head] + r;
    assert q[i] in q && After(q, i) in q;
    LinkWordsInGroup(h, x, g, head, r, q[i]);
    LinkWordsInGroup(h, x, g, head, r, After(q, i));
    hide Spread, GroupWord, Ring, ListHead;
  }

  lemma UnlinkOnly(m: Mem, h: int, x: Index, g: Loc, head: int, r: seq<int>, k: int, b: int, n: int)
    requires Spread(h, x.size) && ListHead(h, g, head) && Ring(m, [head] + r) && 0 <= k <= |r|
    requires forall c :: c in r ==> c in x.size && c in x.loc && x.loc[c] == g
    ensures var q := [head] + r; OnlyGroup(m, Unlink(m, Before(q, k), After(q, k)), h, x, g, b, n)
  {
    var q := [head] + r;
    assert Before(q, k) in q && After(q, k) in q;
    LinkWordsInGroup(h, x, g, head, r, Before(q, k));
    LinkWordsInGroup(h, x, g, head, r, After(q, k));
    hide Spread, GroupWord, Ring, ListHead;
  }

  // ---------- small list and rest list ----------

  lemma SmallMembers(m: Mem, h: int, x: Index, i: int)
    requires IndexInv(m, h, x) && 0 <= i < NUM_BUCKETS
    ensures Ring(m, [SmallHead(h, i)] + x.smalls[i])
    ensures forall c :: c in x.smalls[i] <==> c in x.size && c in x.loc && x.loc[c] == InSmall(i)
  {
    hide Spread, Ring, Rep, Members, Shape, TriesListed;
  }

  lemma RestMembers(m: Mem, h: int, x: Index)
    requires IndexInv(m, h, x)
    ensures Ring(m, [RestHead(h)] + x.rest)
    ensures forall c :: c in x.rest <==> c in x.size && c in x.loc && x.loc[c] == InRest
    ensures forall c :: c in x.rest && x.size[c] >= MAX_SMALL ==> Parent(m, c) == REST_MARK
  {
    hide Spread, Ring, Rep, Members, Shape, TriesListed;
  }

  /** Small blocks enter their bucket right behind the sentinel. */
  lemma SmallAdded(m: Mem, h: int, x: Index, b: int, s: int)
    requires IndexInv(m, h, x) && b !in x.size && Spread(h, x.size[b := s]) && Tag(m, b) == s && s < MAX_SMALL
    ensures 0 <= BucketIndex(s) < NUM_BUCKETS
    ensures var head := SmallHead(h, BucketIndex(s));
            && IndexInv(Splice(m, head, NextF(m, head), b), h, AddSmall(x, b, s))
            && OnlyGroup(m, Splice(m, head, NextF(m, head), b), h, x, InSmall(BucketIndex(s)), b, s)
  {
    hide IndexInv, Spread, Ring;
    NewBlock(h, x.size, b, s);
    var i := BucketIndex(s);
    SmallMembers(m, h, x, i);
    SmallFirst(m, h, x, i);
    var head, r, g := SmallHead(h, i), x.smalls[i], InSmall(i);
    var q := [head] + r;
    var m' := Splice(m, head, NextF(m, head), b);
    HeadersApart(m, h, x, g, head, r, 0, b, s);
    ListApart(h, x, g, head, r, b, s);
    SpliceRing(m, q, 0, b);
    SpliceOnly(m, h, x, g, head, r, 0, b, s);
    assert InsertAfter(q, 0, b) == [head] + ([b] + r);
    AddSmallInv(m, m', h, x, b, s);
  }

  /** The link at the head of a bucket. */
  lemma SmallFirst(m: Mem, h: int, x: Index, i: int)
    requires IndexInv(m, h, x) && 0 <= i < NUM_BUCKETS
    ensures |x.smalls| == NUM_BUCKETS && Spread(h, x.size)
    ensures var q := [SmallHead(h, i)] + x.smalls[i];
            q[0] == SmallHead(h, i) && NextF(m, q[0]) == After(q, 0) && After(q, 0) in q
  {
    hide Spread, Marked, Shaped, SmallsListed, RestListed, TriesListed;
    SmallMembers(m, h, x, i);
    var q := [SmallHead(h, i)] + x.smalls[i];
    assert NextF(m, q[0]) == After(q, 0);
  }

  lemma HeadersApart(m: Mem, h: int, x: Index, g: Loc, head: int, r: seq<int>, i: int, b: int, n: int)
    requires Spread(h, x.size) && OwnBlock(h, x, g, b, n) && ListHead(h, g, head) && b !in x.size
    requires forall c :: c in r ==> c in x.size
    requires Ring(m, [head] + r) && 0 <= i <= |r|
    ensures var q := [head] + r;
            forall w :: b <= w < b + 16 || b + 32 <= w < b + n ==> Rd(Splice(m, q[i], After(q, i), b), w) == Rd(m, w)
  {
    var q := [head] + r;
    forall a | a in q ensures !(b <= a + 16 < b + n) && !(b <= a + 24 < b + n) {
      if a != head { assert a in x.size[b := n] && b in x.size[b := n]; assert x.size[a] >= MIN_BLOCK; }
      else { assert b in x.size[b := n]; }
    }
    assert q[i] in q && After(q, i) in q;
  }

  /** Blocks enter the rest list at the end opposite to the one that is evicted. */
  lemma RestAdded(m: Mem, h: int, x: Index, b: int, s: int)
    requires IndexInv(m, h, x) && b !in x.size && Spread(h, x.size[b := s]) && Tag(m, b) == s
    requires s >= MAX_SMALL ==> Parent(m, b) == REST_MARK
    ensures var prev := PrevF(m, RestHead(h));
            var m' := Splice(m, prev, NextF(m, prev), b);
            IndexInv(m', h, AddRest(x, b, s)) && OnlyGroup(m, m', h, x, InRest, b, s)
  {
    hide IndexInv, Spread, Ring;
    var head, r, g := RestHead(h), x.rest, InRest;
    RestMembers(m, h, x);
    RestTail(m, h, x);
    NewBlock(h, x.size, b, s);
    var q := [head] + r;
    var prev := PrevF(m, head);
    var m' := Splice(m, prev, NextF(m, prev), b);
    HeadersApart(m, h, x, g, head, r, |r|, b, s);
    ListApart(h, x, g, head, r, b, s);
    SpliceRing(m, q, |r|, b);
    SpliceOnly(m, h, x, g, head, r, |r|, b, s);
    assert InsertAfter(q, |r|, b) == [head] + (r + [b]);
    RestMarksStay(m, m', h, x, b, s, prev, NextF(m, prev));
    AddRestInv(m, m', h, x, b, s);
  }

  lemma NewBlock(h: int, d: map<int, int>, b: int, s: int)
    requires Spread(h, d[b := s])
    ensures s % 8 == 0 && s >= MIN_BLOCK && b % 8 == 0 && b > 0
  {
    assert b in d[b := s];
  }

  /** The links at the youngest end of the rest list. */
  lemma RestTail(m: Mem, h: int, x: Index)
    requires IndexInv(m, h, x)
    ensures var q := [RestHead(h)] + x.rest;
            PrevF(m, RestHead(h)) == q[|x.rest|] && NextF(m, q[|x.rest|]) == After(q, |x.rest|) && Spread(h, x.size)
  {
    hide Spread, Placed, Marked, Shaped;
    RestMembers(m, h, x);
    var q := [RestHead(h)] + x.rest;
    assert q[0] == RestHead(h) && PrevF(m, q[0]) == Before(q, 0);
  }

  lemma RestMarksStay(m: Mem, m': Mem, h: int, x: Index, b: int, s: int, prev: int, next: int)
    requires IndexInv(m, h, x) && OwnBlock(h, x, InRest, b, s)
    requires prev in [RestHead(h)] + x.rest && next in [RestHead(h)] + x.rest
    requires forall w :: w != prev + 24 && w != next + 16 && w != b + 16 && w != b + 24 ==> Rd(m', w) == Rd(m, w)
    ensures forall a :: a in x.rest && x.size[a] >= MAX_SMALL ==> Parent(m', a) == REST_MARK
  {
    RestMembers(m, h, x);
    assert Spread(h, x.size);
    forall a | a in x.rest && x.size[a] >= MAX_SMALL ensures Parent(m', a) == REST_MARK {
      if b !in x.size { assert a in x.size[b := s] && b in x.size[b := s]; }
    }
  }

  lemma ListRemoved(m: Mem, h: int, x: Index, g: Loc, head: int, r: seq<int>, b: int)
    requires Spread(h, x.size) && ListHead(h, g, head) && Ring(m, [head] + r) && b in r
    requires forall c :: c in r ==> c in x.size && c in x.loc && x.loc[c] == g
    ensures var m' := Unlink(m, PrevF(m, b), NextF(m, b));
            && Ring(m', [head] + Without(r, b)) && OnlyGroup(m, m', h, x, g, b, x.size[b])
            && PrevF(m, b) in [head] + r && NextF(m, b) in [head] + r
            && NextF(m, PrevF(m, b)) == b && PrevF(m, NextF(m, b)) == b && PrevF(m, b) != b
            && (PrevF(m, b) == NextF(m, b) <==> |r| == 1)
  {
    hide Ring, Spread, LinksApart, OnlyGroup, Unlink, IndexOf;
    var q := [head] + r;
    var k := IndexOf(r, b);
    assert q[k + 1] == b;
    RingLinked(m, q, k + 1);
    RingOnly(m, q, k + 1);
    ListApart(h, x, g, head, r, b, x.size[b]);
    assert Elems(q) + {b} == Elems(q);
    UnlinkRing(m, q, k + 1);
    UnlinkOnly(m, h, x, g, head, r, k + 1, b, x.size[b]);
    assert Drop(q, k + 1) == [head] + Without(r, b);
  }

  lemma RingOnly(m: Mem, q: seq<int>, k: int)
    requires Ring(m, q) && 0 <= k < |q|
    ensures Before(q, k) == After(q, k) <==> |q| <= 2
  {
  }

  lemma SmallRemoved(m: Mem, h: int, x: Index, b: int, i: int)
    requires IndexInv(m, h, x) && b in x.size && x.loc[b] == InSmall(i)
    ensures 0 <= i < NUM_BUCKETS && b in x.smalls[i]
    ensures var m' := Unlink(m, PrevF(m, b), NextF(m, b));
            && IndexInv(m', h, RemoveFree(x, b)) && OnlyGroup(m, m', h, x, InSmall(i), b, x.size[b])
            && NextF(m, PrevF(m, b)) == b && PrevF(m, NextF(m, b)) == b && PrevF(m, b) != b
            && (PrevF(m, b) == NextF(m, b) <==> |x.smalls[i]| == 1)
  {
    hide Spread, Ring, Rep, Members, Shape, TriesListed, OnlyGroup;
    SmallMembers(m, h, x, i);
    ListRemoved(m, h, x, InSmall(i), SmallHead(h, i), x.smalls[i], b);
    RemoveSmallInv(m, Unlink(m, PrevF(m, b), NextF(m, b)), h, x, b, i);
  }

  lemma RestRemoved(m: Mem, h: int, x: Index, b: int)
    requires IndexInv(m, h, x) && b in x.size && x.loc[b] == InRest
    ensures b in x.rest
    ensures var m' := Unlink(m, PrevF(m, b), NextF(m, b));
            && IndexInv(m', h, RemoveFree(x, b)) && OnlyGroup(m, m', h, x, InRest, b, x.size[b])
            && NextF(m, PrevF(m, b)) == b && PrevF(m, NextF(m, b)) == b && PrevF(m, b) != b
            && Tag(m', b) == Tag(m, b) && (x.size[b] >= MAX_SMALL ==> Parent(m', b) == REST_MARK)
            && (PrevF(m, b) == NextF(m, b) <==> |x.rest| == 1)
  {
    hide Spread, Ring, Rep, Members, Shape, TriesListed, OnlyGroup;
    RestMembers(m, h, x);
    ListRemoved(m, h, x, InRest, RestHead(h), x.rest, b);
    var m' := Unlink(m, PrevF(m, b), NextF(m, b));
    RestMarksStay(m, m', h, x, b, x.size[b], PrevF(m, b), NextF(m, b));
    RemoveRestInv(m, m', h, x, b);
    UnlinkKeepsTag(m, h, x, b, PrevF(m, b), NextF(m, b));
  }

  lemma UnlinkKeepsTag(m: Mem, h: int, x: Index, b: int, prev: int, next: int)
    requires Spread(h, x.size) && b in x.size
    requires prev == RestHead(h) || prev in x.size
    requires next == RestHead(h) || next in x.size
    ensures Tag(Unlink(m, prev, next), b) == Tag(m, b)
  {
  }
}
