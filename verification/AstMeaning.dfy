/** What a constant expression means, by one rule for each kind, and that evaluation finds exactly that. */
module AstMeaning {
  import opened Constants
  import opened Ast

  /** From `i` on stands what comes behind the last separator of `name`. */
  ghost predicate LastPart(name: string, i: nat)
  {
    i <= |name| && (i > 0 ==> name[i - 1] == '\\') && forall k :: i <= k < |name| ==> name[k] != '\\'
  }

  /** A leaf is its value, or the constant of its name; an undefined unqualified name is a string. */
  ghost predicate LeafMeans<V(!new)>(g: Algebra<V>, t: Table<V>, lit: Literal<V>, v: V)
  {
    match lit
    case Plain(w) => v == w
    case Named(name, unqualified) =>
      match Find(t, name, unqualified)
      case Found(w) => v == w
      case Missing => unqualified && exists i: nat :: LastPart(name, i) && v == g.text(name[i..])
  }

  /** The elements of an array literal are put in from left to right. */
  function PutAll<V>(g: Algebra<V>, pairs: seq<(Maybe<V>, V)>): V
  {
    if pairs == [] then g.empty
    else
      var last := pairs[|pairs| - 1];
      g.put(PutAll(g, pairs[..|pairs| - 1]), last.0, last.1)
  }

  /** The expression means the value `v`. An expression that means nothing is a fatal error. */
  ghost predicate Means<V(!new)>(g: Algebra<V>, t: Table<V>, a: Tree<V>, v: V)
    decreases a, 3
  {
    if a.Leaf? then LeafMeans(g, t, a.lit, v)
    else
      match a.kind
      case Unsupported => false
      case InitArray => exists pairs :: 2 * |pairs| == |a.children| && PairsGive(g, t, a, pairs) && v == PutAll(g, pairs)
      case Simple(Unary(op)) => exists x :: Gives(g, t, a, 0, x) && v == g.unary(op, x)
      case Simple(Plus) => exists x :: Gives(g, t, a, 0, x) && v == g.binary(ADD, g.zero, x)
      case Simple(Minus) => exists x :: Gives(g, t, a, 0, x) && v == g.binary(SUB, g.zero, x)
      case Simple(Binary(op)) => exists x, y :: Gives(g, t, a, 0, x) && Gives(g, t, a, 1, y) && v == g.binary(op, x, y)
      case Simple(Dim) => exists x, y :: Gives(g, t, a, 0, x) && Gives(g, t, a, 1, y) && v == g.dim(x, y)
      case Simple(And) =>
        || (Says(g, t, a, 0, false) && v == g.ofBool(false))
        || (Says(g, t, a, 0, true) && exists y :: Gives(g, t, a, 1, y) && v == g.ofBool(g.truth(y)))
      case Simple(Or) =>
        || (Says(g, t, a, 0, true) && v == g.ofBool(true))
        || (Says(g, t, a, 0, false) && exists y :: Gives(g, t, a, 1, y) && v == g.ofBool(g.truth(y)))
      case Simple(Select) =>
        || (Says(g, t, a, 0, true) && (if Has(a, 1) then Gives(g, t, a, 1, v) else Gives(g, t, a, 0, v)))
        || (Says(g, t, a, 0, false) && Gives(g, t, a, 2, v))
  }

  /** Child `i` is there and means `v`. */
  ghost predicate Gives<V(!new)>(g: Algebra<V>, t: Table<V>, a: Tree<V>, i: nat, v: V)
    decreases a, 0
  {
    Has(a, i) && Means(g, t, a.children[i].tree, v)
  }

  /** Child `i` means something that counts as true, or as false. */
  ghost predicate Says<V(!new)>(g: Algebra<V>, t: Table<V>, a: Tree<V>, i: nat, b: bool)
    decreases a, 1
  {
    exists x :: Gives(g, t, a, i, x) && g.truth(x) == b
  }

  /** Pair number `i`: an optional key, then a value. */
  ghost predicate PairGives<V(!new)>(g: Algebra<V>, t: Table<V>, a: Tree<V>, i: nat, pair: (Maybe<V>, V))
    requires a.Node?
    decreases a, 1
  {
    && Gives(g, t, a, 2 * i + 1, pair.1)
    && if pair.0.Just? then Gives(g, t, a, 2 * i, pair.0.value) else a.children[2 * i].Absent?
  }

  ghost predicate PairsGive<V(!new)>(g: Algebra<V>, t: Table<V>, a: Tree<V>, pairs: seq<(Maybe<V>, V)>)
    requires a.Node?
    decreases a, 2
  {
    forall i: nat :: i < |pairs| ==> PairGives(g, t, a, i, pairs[i])
  }

  // ---------- evaluation finds the meaning ----------

  lemma LeafMeaning<V(!new)>(g: Algebra<V>, t: Table<V>, lit: Literal<V>, v: V)
    ensures Resolve(g, t, lit) == Value(v) <==> LeafMeans(g, t, lit, v)
  {
    hide Find, LastPart, LastSlash;
    if lit.Named? { TheLastPart(lit.name); }
  }

  lemma TheLastPart(name: string)
    ensures forall i: nat :: LastPart(name, i) <==> i == LastSlash(name) + 1
  {
    var k := LastSlash(name);
    hide LastSlash;
    forall i: nat | LastPart(name, i) ensures i == k + 1 {
      assert !(0 <= k && i <= k);
      assert !(i > k + 1);
    }
  }

  /** A child gives what it evaluates to, and an absent one nothing. */
  lemma ChildMeaning<V(!new)>(g: Algebra<V>, t: Table<V>, a: Tree<V>, i: nat)
    requires a.Node?
    ensures forall v :: Gives(g, t, a, i, v) <==> Has(a, i) && Eval(g, t, a.children[i].tree) == Value(v)
    decreases a, 0
  {
    hide Eval, Means;
    forall v ensures Gives(g, t, a, i, v) <==> Has(a, i) && Eval(g, t, a.children[i].tree) == Value(v) {
      if Has(a, i) { EvalMeans(g, t, a.children[i].tree, v); }
    }
  }

  /** Evaluation gives a value exactly if the expression means it; so it means at most one. */
  lemma {:induction false} EvalMeans<V(!new)>(g: Algebra<V>, t: Table<V>, a: Tree<V>, v: V)
    ensures Eval(g, t, a) == Value(v) <==> Means(g, t, a, v)
    decreases a, 4
  {
    hide Gives;
    match a
    case Leaf(lit) => LeafMeaning(g, t, lit, v);
    case Node(kind, children) =>
      match kind
      case Unsupported =>
      case InitArray => ArrayMeans(g, t, a, v);
      case Simple(s) => SimpleMeans(g, t, a, s, v);
  }

  lemma SimpleMeans<V(!new)>(g: Algebra<V>, t: Table<V>, a: Tree<V>, s: Simple, v: V)
    requires a.Node? && a.kind == Kind.Simple(s)
    ensures Eval(g, t, a) == Value(v) <==> Means(g, t, a, v)
    decreases a, 3
  {
    hide Gives, Says;
    ChildMeaning(g, t, a, 0);
    ChildMeaning(g, t, a, 1);
    ChildMeaning(g, t, a, 2);
    Truth(g, t, a, true);
    Truth(g, t, a, false);
  }

  lemma Truth<V(!new)>(g: Algebra<V>, t: Table<V>, a: Tree<V>, b: bool)
    requires a.Node?
    ensures Says(g, t, a, 0, b)
            <==> Has(a, 0) && Eval(g, t, a.children[0].tree).Value? && g.truth(Eval(g, t, a.children[0].tree).v) == b
    decreases a, 1
  {
    hide Gives, Eval;
    ChildMeaning(g, t, a, 0);
    if Has(a, 0) && Eval(g, t, a.children[0].tree).Value? { assert Gives(g, t, a, 0, Eval(g, t, a.children[0].tree).v); }
  }

  lemma PutNext<V>(g: Algebra<V>, pairs: seq<(Maybe<V>, V)>, p: (Maybe<V>, V))
    ensures PutAll(g, pairs + [p]) == g.put(PutAll(g, pairs), p.0, p.1)
  {
    assert (pairs + [p])[..|pairs|] == pairs;
  }

  /** Key and value of a pair, as evaluation finds them. */
  lemma PairMeaning<V(!new)>(g: Algebra<V>, t: Table<V>, a: Tree<V>, i: nat, pair: (Maybe<V>, V))
    requires a.Node? && 2 * i < |a.children|
    ensures PairGives(g, t, a, i, pair)
            <==> Has(a, 2 * i + 1) && EvalKey(g, t, a, 2 * i) == Value(pair.0) && Eval(g, t, a.children[2 * i + 1].tree) == Value(pair.1)
    decreases a, 1
  {
    hide Gives;
    ChildMeaning(g, t, a, 2 * i);
    ChildMeaning(g, t, a, 2 * i + 1);
  }

  lemma {:induction false} PairsFound<V(!new)>(g: Algebra<V>, t: Table<V>, a: Tree<V>, done: seq<(Maybe<V>, V)>, v: V)
    returns (pairs: seq<(Maybe<V>, V)>)
    requires a.Node? && 2 * |done| <= |a.children| && PairsGive(g, t, a, done)
    requires EvalPairs(g, t, a, 2 * |done|, PutAll(g, done)) == Value(v)
    ensures 2 * |pairs| == |a.children| && PairsGive(g, t, a, pairs) && v == PutAll(g, pairs)
    decreases a, 2, |a.children| - 2 * |done|
  {
    hide PutAll, PairGives;
    var i := 2 * |done|;
    if i >= |a.children| {
      pairs := done;
    } else {
      var pair := (EvalKey(g, t, a, i).v, Eval(g, t, a.children[i + 1].tree).v);
      PairMeaning(g, t, a, |done|, pair);
      PutNext(g, done, pair);
      pairs := PairsFound(g, t, a, done + [pair], v);
    }
  }

  lemma {:induction false} PairsValue<V(!new)>(g: Algebra<V>, t: Table<V>, a: Tree<V>, pairs: seq<(Maybe<V>, V)>, k: nat)
    requires a.Node? && 2 * |pairs| == |a.children| && PairsGive(g, t, a, pairs) && k <= |pairs|
    ensures EvalPairs(g, t, a, 2 * k, PutAll(g, pairs[..k])) == Value(PutAll(g, pairs))
    decreases a, 2, |pairs| - k
  {
    hide PutAll, PairGives;
    if k == |pairs| {
      assert pairs[..k] == pairs;
    } else {
      PairMeaning(g, t, a, k, pairs[k]);
      PutNext(g, pairs[..k], pairs[k]);
      assert pairs[..k] + [pairs[k]] == pairs[..k + 1];
      PairsValue(g, t, a, pairs, k + 1);
    }
  }

  lemma ArrayMeans<V(!new)>(g: Algebra<V>, t: Table<V>, a: Tree<V>, v: V)
    requires a.Node? && a.kind == InitArray
    ensures Eval(g, t, a) == Value(v) <==> Means(g, t, a, v)
    decreases a, 3
  {
    hide PutAll, PairGives, EvalPairs;
    Empty(g);
    if Eval(g, t, a) == Value(v) {
      var pairs := PairsFound(g, t, a, [], v);
    }
    if Means(g, t, a, v) {
      var pairs :| 2 * |pairs| == |a.children| && PairsGive(g, t, a, pairs) && v == PutAll(g, pairs);
      PairsValue(g, t, a, pairs, 0);
      assert pairs[..0] == [];
    }
  }

  lemma Empty<V>(g: Algebra<V>) ensures PutAll(g, []) == g.empty { }

  // ---------- consequences ----------

  /** So does the evaluation that folds. */
  lemma FoldMeans<V(!new)>(g: Algebra<V>, t: Table<V>, scope: bool, a: Tree<V>, v: V)
    ensures Fold(g, t, scope, a).r == Value(v) <==> Means(g, t, a, v)
    ensures Fold(g, t, scope, a).r == Fatal <==> forall w :: !Means(g, t, a, w)
  {
    hide Means, Fold, Eval;
    FoldValue(g, t, scope, a);
    forall w ensures Eval(g, t, a) == Value(w) <==> Means(g, t, a, w) { EvalMeans(g, t, a, w); }
    if Eval(g, t, a).Value? { assert Means(g, t, a, Eval(g, t, a).v); }
  }

  /** `b` is `a` with some constants replaced by what they stand for, and nothing else changed. */
  ghost predicate Reduced<V>(g: Algebra<V>, t: Table<V>, a: Tree<V>, b: Tree<V>)
  {
    if a.Leaf? then b == a || (Resolve(g, t, a.lit).Value? && b == Leaf(Plain(Resolve(g, t, a.lit).v)))
    else
      && b.Node? && b.kind == a.kind && |b.children| == |a.children|
      && forall i :: 0 <= i < |a.children| ==>
           && b.children[i].Present? == a.children[i].Present?
           && (a.children[i].Present? && b.children[i].Present? ==> Reduced(g, t, a.children[i].tree, b.children[i].tree))
  }

  lemma {:induction false} ReducedSame<V>(g: Algebra<V>, t: Table<V>, a: Tree<V>)
    ensures Reduced(g, t, a, a)
  {
    if a.Node? {
      forall i | 0 <= i < |a.children| && a.children[i].Present? ensures Reduced(g, t, a.children[i].tree, a.children[i].tree) {
        ReducedSame(g, t, a.children[i].tree);
      }
    }
  }

  lemma SetReduced<V>(g: Algebra<V>, t: Table<V>, a: Tree<V>, b: Tree<V>, i: nat, c: Child<V>)
    requires a.Node? && b.Node? && Reduced(g, t, a, b) && i < |a.children| == |b.children|
    requires c.Present? == a.children[i].Present? && (c.Present? ==> Reduced(g, t, a.children[i].tree, c.tree))
    ensures Reduced(g, t, a, b.(children := b.children[i := c]))
  {
  }

  /** Folding replaces constants and changes nothing else. */
  lemma {:induction false} FoldReduces<V>(g: Algebra<V>, t: Table<V>, scope: bool, a: Tree<V>)
    ensures Reduced(g, t, a, Fold(g, t, scope, a).tree)
    decreases a, 0
  {
    ReducedSame(g, t, a);
    if a.Leaf? { return; }
    hide Reduced;
    if a.Node? {
      match a.kind
      case Unsupported =>
      case InitArray => PairsReduce(g, t, scope, a, 0, g.empty);
      case Simple(s) =>
        if Has(a, 0) {
          FoldReduces(g, t, scope, a.children[0].tree);
          var f := Fold(g, t, scope, a.children[0].tree);
          SetReduced(g, t, a, a, 0, Present(f.tree));
          var a1 := SetChild(a, 0, f.tree);
          if f.r.Value? {
            var p := PlanOf(g, s, Has(a, 1), f.r.v);
            if p.More? && Has(a, p.i) {
              FoldReduces(g, t, scope, a.children[p.i].tree);
              SetReduced(g, t, a, a1, p.i, Present(Fold(g, t, scope, a.children[p.i].tree).tree));
            }
          }
        }
    }
  }

  lemma {:induction false} PairsReduce<V>(g: Algebra<V>, t: Table<V>, scope: bool, a: Tree<V>, i: nat, acc: V)
    requires a.Node? && Reduced(g, t, a, a)
    ensures Reduced(g, t, a, FoldPairs(g, t, scope, a, i, acc).tree)
    decreases a, 0, |a.children| - i
  {
    hide Reduced;
    if i < |a.children| && Has(a, i + 1) {
      if a.children[i].Present? { FoldReduces(g, t, scope, a.children[i].tree); }
      FoldReduces(g, t, scope, a.children[i + 1].tree);
      var k, f := FoldKey(g, t, scope, a, i), Fold(g, t, scope, a.children[i + 1].tree);
      SetReduced(g, t, a, a, i, k.1);
      SetReduced(g, t, a, a.(children := a.children[i := k.1]), i + 1, Present(f.tree));
      if k.0.Value? && f.r.Value? {
        var acc' := g.put(acc, k.0.v, f.r.v);
        PairsReduce(g, t, scope, a, i + 2, acc');
        var rest := FoldPairs(g, t, scope, a, i + 2, acc').tree;
        SetReduced(g, t, a, rest, i, k.1);
        SetReduced(g, t, a, rest.(children := rest.children[i := k.1]), i + 1, Present(f.tree));
      }
    }
  }

  /** A conditional is its second operand or, if that is left out, its first, when the first is true, and
      else its third; the operand not taken may be anything, even an error, and is not folded. */
  lemma SelectTakes<V>(g: Algebra<V>, t: Table<V>, scope: bool, c: Tree<V>, x: Child<V>, y: Tree<V>)
    ensures var first := Eval(g, t, c);
            Fold(g, t, scope, Node(Kind.Simple(Select), [Present(c), x, Present(y)])).r
            == if first.Fatal? then Fatal
               else if !g.truth(first.v) then Eval(g, t, y)
               else if x.Present? then Eval(g, t, x.tree) else first
    ensures var first := Eval(g, t, c);
            var after := Fold(g, t, scope, Node(Kind.Simple(Select), [Present(c), x, Present(y)])).tree;
            && Reduced(g, t, Node(Kind.Simple(Select), [Present(c), x, Present(y)]), after)
            && (first.Fatal? || !g.truth(first.v) ==> after.children[1] == x)
            && (first.Fatal? || g.truth(first.v) ==> after.children[2] == Present(y))
  {
    FoldReduces(g, t, scope, Node(Kind.Simple(Select), [Present(c), x, Present(y)]));
    FoldValue(g, t, scope, c);
    FoldValue(g, t, scope, Node(Kind.Simple(Select), [Present(c), x, Present(y)]));
  }

  /** `&&` and `||` are conditionals on truth values, and like them leave the second operand alone when the
      first decides. */
  lemma ShortCircuit<V>(g: Algebra<V>, t: Table<V>, scope: bool, c: Tree<V>, d: Tree<V>, no: V, yes: V)
    requires !g.truth(no) && g.truth(yes) && g.ofBool(false) == no && g.ofBool(true) == yes
    ensures var truth := Node(Kind.Simple(Select), [Present(d), Present(Leaf(Plain(yes))), Present(Leaf(Plain(no)))]);
            && Fold(g, t, scope, Node(Kind.Simple(And), [Present(c), Present(d)])).r
               == Fold(g, t, scope, Node(Kind.Simple(Select), [Present(c), Present(truth), Present(Leaf(Plain(no)))])).r
            && Fold(g, t, scope, Node(Kind.Simple(Or), [Present(c), Present(d)])).r
               == Fold(g, t, scope, Node(Kind.Simple(Select), [Present(c), Present(Leaf(Plain(yes))), Present(truth)])).r
  {
    hide Fold;
    var n, y := Leaf(Plain(no)), Leaf(Plain(yes));
    var truth := Node(Kind.Simple(Select), [Present(d), Present(y), Present(n)]);
    SelectTakes(g, t, scope, d, Present(y), n);
    FoldValue(g, t, scope, truth);
    SelectTakes(g, t, scope, c, Present(truth), n);
    SelectTakes(g, t, scope, c, Present(y), truth);
    FoldValue(g, t, scope, Node(Kind.Simple(And), [Present(c), Present(d)]));
    FoldValue(g, t, scope, Node(Kind.Simple(Or), [Present(c), Present(d)]));
  }
}
