/** Flat word-addressed memory and the doubly linked rings kept in it. An address is an `int`;
    every word the allocator touches has an address that is a multiple of eight. */
module Memory {

  type Mem = map<int, int>

  function Rd(m: Mem, a: int): int { if a in m then m[a] else 0 }

  function Wr(m: Mem, a: int, v: int): (r: Mem)
    ensures Rd(r, a) == v
    ensures forall b :: b != a ==> Rd(r, b) == Rd(m, b)
  {
    m[a := v]
  }

  // Fields of zend_mm_block / zend_mm_free_block by offset.
  function Tag(m: Mem, a: int): int { Rd(m, a) }             // info._size
  function PrevTag(m: Mem, a: int): int { Rd(m, a + 8) }     // info._prev
  function PrevF(m: Mem, a: int): int { Rd(m, a + 16) }      // prev_free_block
  function NextF(m: Mem, a: int): int { Rd(m, a + 24) }      // next_free_block
  function Parent(m: Mem, a: int): int { Rd(m, a + 32) }     // parent (a slot address)
  function ChildSlot(a: int, c: int): int { a + 40 + 8 * c } // &child[c]
  function Child(m: Mem, a: int, c: int): int { Rd(m, ChildSlot(a, c)) }

  ghost predicate SameLinks(m: Mem, m': Mem, a: int)
  {
    PrevF(m, a) == PrevF(m', a) && NextF(m, a) == NextF(m', a)
  }

  ghost predicate Distinct(r: seq<int>)
  {
    forall i, j :: 0 <= i < j < |r| ==> r[i] != r[j]
  }

  function After(r: seq<int>, i: int): int
    requires 0 <= i < |r|
  {
    if i + 1 < |r| then r[i + 1] else r[0]
  }

  function Before(r: seq<int>, i: int): int
    requires 0 <= i < |r|
  {
    if i > 0 then r[i - 1] else r[|r| - 1]
  }

  /** `r` lists, in `next` order, a circular doubly linked list. */
  ghost predicate Ring(m: Mem, r: seq<int>)
  {
    && |r| > 0
    && Distinct(r)
    && (forall i :: 0 <= i < |r| ==> NextF(m, r[i]) == After(r, i))
    && (forall i :: 0 <= i < |r| ==> PrevF(m, r[i]) == Before(r, i))
  }

  lemma RingFrame(m: Mem, m': Mem, r: seq<int>)
    requires Ring(m, r)
    requires forall a :: a in r ==> SameLinks(m, m', a)
    ensures Ring(m', r)
  {
    forall i | 0 <= i < |r| ensures NextF(m', r[i]) == After(r, i) && PrevF(m', r[i]) == Before(r, i) {
      assert SameLinks(m, m', r[i]);
    }
  }

  function InsertAfter(r: seq<int>, i: int, b: int): (q: seq<int>)
    requires 0 <= i < |r|
    ensures |q| == |r| + 1 && q[i + 1] == b
    ensures forall k :: 0 <= k <= i ==> q[k] == r[k]
    ensures forall k :: i + 1 < k < |q| ==> q[k] == r[k - 1]
  {
    r[..i + 1] + [b] + r[i + 1..]
  }

  function Drop(r: seq<int>, k: int): (q: seq<int>)
    requires 0 <= k < |r|
    ensures |q| == |r| - 1
    ensures forall j :: 0 <= j < k ==> q[j] == r[j]
    ensures forall j :: k <= j < |q| ==> q[j] == r[j + 1]
  {
    r[..k] + r[k + 1..]
  }

  lemma DistinctInsert(r: seq<int>, i: int, b: int)
    requires Distinct(r) && 0 <= i < |r| && b !in r
    ensures Distinct(InsertAfter(r, i, b))
  {
  }

  lemma DistinctDrop(r: seq<int>, k: int)
    requires Distinct(r) && 0 <= k < |r|
    ensures Distinct(Drop(r, k))
  {
  }

  lemma InsertAfterAt(r: seq<int>, i: int, b: int, k: int)
    requires 0 <= i < |r| && 0 <= k <= |r| && k != i + 1
    ensures var q := InsertAfter(r, i, b);
            var j := if k <= i then k else k - 1;
            && q[k] == r[j]
            && After(q, k) == (if j == i then b else After(r, j))
            && Before(q, k) == (if j == (if i + 1 < |r| then i + 1 else 0) then b else Before(r, j))
  {
  }

  /** The four writes that splice `b` in behind `r[i]`. */
  lemma RingInsert(m: Mem, m': Mem, r: seq<int>, i: int, b: int)
    requires Ring(m, r) && 0 <= i < |r| && b !in r
    requires NextF(m', b) == After(r, i) && PrevF(m', b) == r[i]
    requires NextF(m', r[i]) == b && PrevF(m', After(r, i)) == b
    requires forall a :: a in r && a != r[i] ==> NextF(m', a) == NextF(m, a)
    requires forall a :: a in r && a != After(r, i) ==> PrevF(m', a) == PrevF(m, a)
    ensures Ring(m', InsertAfter(r, i, b))
  {
    var q := InsertAfter(r, i, b);
    DistinctInsert(r, i, b);
    forall k | 0 <= k < |q| ensures NextF(m', q[k]) == After(q, k) && PrevF(m', q[k]) == Before(q, k) {
      if k != i + 1 {
        InsertAfterAt(r, i, b, k);
        RingAt(m, r, if k <= i then k else k - 1);
      }
    }
  }

  lemma RingAt(m: Mem, r: seq<int>, j: int)
    requires Ring(m, r) && 0 <= j < |r|
    ensures r[j] in r && NextF(m, r[j]) == After(r, j) && PrevF(m, r[j]) == Before(r, j)
  {
  }

  lemma DropAt(r: seq<int>, k: int, j: int)
    requires 0 <= k < |r| && |r| >= 2 && 0 <= j < |r| - 1
    ensures var q := Drop(r, k);
            var i := if j < k then j else j + 1;
            && q[j] == r[i] && i != k
            && After(q, j) == (if i == (if k > 0 then k - 1 else |r| - 1) then After(r, k) else After(r, i))
            && Before(q, j) == (if i == (if k + 1 < |r| then k + 1 else 0) then Before(r, k) else Before(r, i))
  {
  }

  /** The two writes that unlink `r[k]`. */
  lemma RingRemove(m: Mem, m': Mem, r: seq<int>, k: int)
    requires Ring(m, r) && 0 <= k < |r| && |r| >= 2
    requires NextF(m', Before(r, k)) == After(r, k) && PrevF(m', After(r, k)) == Before(r, k)
    requires forall a :: a in r && a != Before(r, k) && a != r[k] ==> NextF(m', a) == NextF(m, a)
    requires forall a :: a in r && a != After(r, k) && a != r[k] ==> PrevF(m', a) == PrevF(m, a)
    ensures Ring(m', Drop(r, k))
  {
    var q := Drop(r, k);
    DistinctDrop(r, k);
    forall j | 0 <= j < |q| ensures NextF(m', q[j]) == After(q, j) && PrevF(m', q[j]) == Before(q, j) {
      DropAt(r, k, j);
      RingAt(m, r, if j < k then j else j + 1);
    }
  }

  /** A ring may be listed from any of its members. */
  lemma RingRotate(m: Mem, r: seq<int>)
    requires Ring(m, r)
    ensures Ring(m, [r[|r| - 1]] + r[..|r| - 1])
  {
    var q := [r[|r| - 1]] + r[..|r| - 1];
    forall j | 0 <= j < |q| ensures NextF(m, q[j]) == After(q, j) && PrevF(m, q[j]) == Before(q, j) {
      var i := if j == 0 then |r| - 1 else j - 1;
      assert q[j] == r[i];
      assert NextF(m, r[i]) == After(r, i) && PrevF(m, r[i]) == Before(r, i);
    }
  }

  /** What the safe-unlinking test reads, for any member of a ring. */
  lemma RingLinked(m: Mem, r: seq<int>, k: int)
    requires Ring(m, r) && 0 <= k < |r|
    ensures NextF(m, PrevF(m, r[k])) == r[k] && PrevF(m, NextF(m, r[k])) == r[k]
    ensures PrevF(m, r[k]) in r && NextF(m, r[k]) in r
    ensures PrevF(m, r[k]) == r[k] <==> |r| == 1
    ensures PrevF(m, r[k]) == Before(r, k) && NextF(m, r[k]) == After(r, k)
  {
    var p, n := if k > 0 then k - 1 else |r| - 1, if k + 1 < |r| then k + 1 else 0;
    assert NextF(m, r[p]) == After(r, p) && PrevF(m, r[n]) == Before(r, n);
  }

  /** The `n` cells from `p` in `m` are those from `q` in `m'`. */
  ghost predicate Copied(m: Mem, p: int, m': Mem, q: int, n: int)
  {
    forall w {:trigger Rd(m', w)} :: q <= w < q + n ==> Rd(m', w) == Rd(m, w - q + p)
  }
}
