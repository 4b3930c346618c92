/** Expression nodes that grow child by child (zend_ast_create_dynamic, zend_ast_dynamic_add). */
module AstBuild {

  /** `n & -n`: the lowest set bit. */
  function LowestBit(n: nat): nat
  {
    if n == 0 then 0 else if n % 2 == 1 then 1 else 2 * LowestBit(n / 2)
  }

  /** The counts at which the node is reallocated before the next child. */
  predicate Grows(n: nat) { n >= 4 && n == LowestBit(n) }

  lemma GrowsAgain(n: nat)
    requires Grows(n)
    ensures Grows(2 * n)
  {
  }

  /** From `n` children to `m` without a reallocation. */
  ghost predicate Reach(n: nat, m: nat) { n <= m && forall q: nat :: n <= q < m ==> !Grows(q) }

  /** There is room for every count that can be reached without another reallocation. */
  ghost predicate Room(n: nat, capacity: nat)
  {
    forall m: nat :: Reach(n, m) ==> m <= capacity
  }

  const COUNTS: nat := 65536        // the count is an unsigned short

  function Count(n: nat): (c: nat)
    ensures c <= n && c < COUNTS && (c == n <==> n < COUNTS)
  {
    n % COUNTS
  }

  /** The first `count` cells hold the last `count` children added. */
  ghost predicate Holds<T>(cells: map<nat, T>, count: nat, added: seq<T>)
  {
    count <= |added| && forall i :: 0 <= i < count ==> i in cells && cells[i] == added[|added| - count + i]
  }

  class Dynamic<T> {
    var cells: map<nat, T>      // the child pointers written so far, inside the allocated node
    var capacity: nat           // child pointers that fit into it
    var count: nat
    ghost var added: seq<T>     // all children ever added

    /** The children of the node are those added since the count last wrapped. */
    ghost predicate Valid()
      reads this
    {
      && count <= capacity && Room(count, capacity) && (forall i :: i in cells ==> i < capacity)
      && count == Count(|added|) && Holds(cells, count, added)
    }

    ghost function Children(): seq<T>
      requires Valid()
      reads this
    {
      Listed(cells, count, added)
    }

    constructor ()
      ensures Valid() && added == [] && Children() == []
    {
      cells, capacity, count, added := map[], 4, 0, [];
      assert Grows(4);
    }

    /** The child is stored inside the allocation, also when the count has wrapped; none is lost when
        the node moves; at the wrap all are. */
    method Add(op: T)
      requires Valid()
      modifies this
      ensures Valid() && added == old(added) + [op]
      ensures old(count) < capacity && old(count) in cells && cells[old(count)] == op
      ensures Children() == if old(count) == COUNTS - 1 then [] else old(Children()) + [op]
    {
      hide Room, Count, Holds, Listed;
      MakeRoom();
      var n := count;
      cells := cells[n := op];
      count := (n + 1) % COUNTS;
      added := added + [op];
      Counted(|old(added)|);
      HoldsNext(old(cells), cells, n, old(added), op, count);
      if count == 0 { RoomWrapped(n, capacity); }
    }

    /** A full node is reallocated. */
    method MakeRoom()
      requires Valid()
      modifies this`capacity, this`cells
      ensures count < capacity && Room(count + 1, capacity) && forall i :: i in cells ==> i < capacity
      ensures forall i :: 0 <= i < count && i in old(cells) ==> i in cells && cells[i] == old(cells)[i]
    {
      hide Room, Count, Holds, LowestBit;
      if Grows(count) {
        capacity := 2 * count + 2;
        cells := map i | i in cells && i < capacity :: cells[i];
        GrowsAgain(count);
        RoomAfter(count);
      } else {
        RoomKept(count, capacity);
      }
    }

    /** The node has every child that was added exactly if there were fewer than 65536. */
    lemma NoneLostIff()
      requires Valid()
      ensures Children() == added <==> |added| < COUNTS
    {
      if |added| < COUNTS { assert added[0..] == added; }
    }
  }

  ghost function Listed<T>(cells: map<nat, T>, count: nat, added: seq<T>): (r: seq<T>)
    requires Holds(cells, count, added)
    ensures r == added[|added| - count..]
  {
    seq(count, i requires 0 <= i < count => cells[i])
  }

  lemma Counted(n: nat)
    ensures Count(n + 1) == (Count(n) + 1) % COUNTS == if Count(n) == COUNTS - 1 then 0 else Count(n) + 1
  {
  }

  lemma HoldsNext<T>(cells: map<nat, T>, cells': map<nat, T>, n: nat, added: seq<T>, op: T, count: nat)
    requires Holds(cells, n, added) && n in cells' && cells'[n] == op && (count == 0 || count == n + 1)
    requires forall i :: 0 <= i < n && i in cells ==> i in cells' && cells'[i] == cells[i]
    ensures Holds(cells', count, added + [op])
    ensures Listed(cells', count, added + [op]) == if count == 0 then [] else Listed(cells, n, added) + [op]
  {
    hide Listed;
    if count > 0 { assert (added + [op])[|added| - n..] == added[|added| - n..] + [op]; }
  }

  /** A node with room for the last count has room to start again. */
  lemma RoomWrapped(n: nat, capacity: nat)
    requires 4 <= n && Room(n + 1, capacity)
    ensures Room(0, capacity)
  {
    assert Grows(4);
    assert Reach(n + 1, n + 1);
    forall m: nat | Reach(0, m) ensures m <= capacity { }
  }

  lemma RoomAfter(n: nat)
    requires Grows(n) && Grows(2 * n)
    ensures Room(n + 1, 2 * n + 2)
  {
    var k, d: nat := n + 1, 2 * n;
    forall m: nat | Reach(k, m) ensures m <= d + 2 { assert Grows(d); }
  }

  lemma RoomKept(n: nat, capacity: nat)
    requires !Grows(n) && Room(n, capacity)
    ensures n + 1 <= capacity && Room(n + 1, capacity)
  {
    assert Reach(n, n + 1);
    var k := n + 1;
    forall m: nat | Reach(k, m) ensures m <= capacity { assert Reach(n, m); }
  }
}
