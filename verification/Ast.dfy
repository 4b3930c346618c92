/** Constant expressions: evaluation, folding of resolved constants into the tree, copies, and trees
    that need no environment. Values and operators are parameters. */
module Ast {
  import opened Constants

  /** The operators of the engine, which this model does not look into. */
  datatype Algebra<!V> = Algebra(
    binary: (int, V, V) -> V, unary: (int, V) -> V, truth: V -> bool, ofBool: bool -> V, zero: V,
    text: string -> V, empty: V, put: (V, Maybe<V>, V) -> V, dim: (V, V) -> V)

  datatype Maybe<V> = Nothing | Just(value: V)

  datatype Outcome<V> = Value(v: V) | Fatal

  /** A leaf is a finished value or the name of a constant; an unqualified name that is undefined
      stands for itself as a string, a qualified one is a fatal error. */
  datatype Literal<V> = Plain(v: V) | Named(name: string, unqualified: bool)

  /** Expressions that evaluate their first operand and then perhaps one more. */
  datatype Simple = Binary(op: int) | Dim | Unary(op: int) | Plus | Minus | And | Or | Select

  datatype Kind = Simple(s: Simple) | InitArray | Unsupported

  const ADD: int := 1
  const SUB: int := 2

  datatype Tree<V> = Leaf(lit: Literal<V>) | Node(kind: Kind, children: seq<Child<V>>)
  datatype Child<V> = Absent | Present(tree: Tree<V>)

  predicate Has<V>(a: Tree<V>, i: nat) { a.Node? && i < |a.children| && a.children[i].Present? }

  /** zval_update_constant_ex on a leaf. */
  function Resolve<V>(g: Algebra<V>, t: Table<V>, lit: Literal<V>): Outcome<V>
  {
    match lit
    case Plain(v) => Value(v)
    case Named(name, unqualified) =>
      var f := Find(t, name, unqualified);
      if f.Found? then Value(f.value)
      else if unqualified then Value(g.text(name[LastSlash(name) + 1..]))
      else Fatal
  }

  // ---------- one step of an expression ----------

  /** After the first operand: the result is known, or child number `i` is evaluated. */
  datatype Plan<V> = Done(v: V) | More(i: nat)

  function PlanOf<V>(g: Algebra<V>, s: Simple, hasSecond: bool, v: V): Plan<V>
  {
    match s
    case Binary(_) => More(1)
    case Dim => More(1)
    case Unary(op) => Done(g.unary(op, v))
    case Plus => Done(g.binary(ADD, g.zero, v))
    case Minus => Done(g.binary(SUB, g.zero, v))
    case And => if g.truth(v) then More(1) else Done(g.ofBool(false))
    case Or => if g.truth(v) then Done(g.ofBool(true)) else More(1)
    case Select => if !g.truth(v) then More(2) else if hasSecond then More(1) else Done(v)
  }

  /** The result from both operands. */
  function Finish<V>(g: Algebra<V>, s: Simple, v: V, w: V): V
  {
    match s
    case Binary(op) => g.binary(op, v, w)
    case Dim => g.dim(v, w)
    case And => g.ofBool(g.truth(w))
    case Or => g.ofBool(g.truth(w))
    case _ => w
  }

  // ---------- evaluation without mutation ----------

  function Eval<V>(g: Algebra<V>, t: Table<V>, a: Tree<V>): Outcome<V>
    decreases a, 0
  {
    match a
    case Leaf(lit) => Resolve(g, t, lit)
    case Node(kind, children) =>
      match kind
      case Unsupported => Fatal
      case InitArray => EvalPairs(g, t, a, 0, g.empty)
      case Simple(s) =>
        if !Has(a, 0) then Fatal
        else
          var r := Eval(g, t, children[0].tree);
          if r.Fatal? then Fatal
          else
            match PlanOf(g, s, Has(a, 1), r.v)
            case Done(v) => Value(v)
            case More(i) =>
              if !Has(a, i) then Fatal
              else
                var r' := Eval(g, t, children[i].tree);
                if r'.Fatal? then Fatal else Value(Finish(g, s, r.v, r'.v))
  }

  /** The pairs of an array literal from child `i` on; keys may be absent. */
  function EvalPairs<V>(g: Algebra<V>, t: Table<V>, a: Tree<V>, i: nat, acc: V): Outcome<V>
    requires a.Node?
    decreases a, 0, |a.children| - i
  {
    if i >= |a.children| then Value(acc)
    else if !Has(a, i + 1) then Fatal
    else
      var key := EvalKey(g, t, a, i);
      if key.Fatal? then Fatal
      else
        var e := Eval(g, t, a.children[i + 1].tree);
        if e.Fatal? then Fatal else EvalPairs(g, t, a, i + 2, g.put(acc, key.v, e.v))
  }

  function EvalKey<V>(g: Algebra<V>, t: Table<V>, a: Tree<V>, i: nat): Outcome<Maybe<V>>
    requires a.Node? && i < |a.children|
    decreases a, 0, |a.children| - i, 0
  {
    if a.children[i].Absent? then Value(Nothing)
    else
      var r := Eval(g, t, a.children[i].tree);
      if r.Fatal? then Fatal else Value(Just(r.v))
  }

  // ---------- evaluation that folds ----------

  /** The outcome and the tree as evaluation leaves it. */
  datatype Folded<V> = Folded(r: Outcome<V>, tree: Tree<V>)

  function SetChild<V>(a: Tree<V>, i: nat, c: Tree<V>): Tree<V>
    requires a.Node? && i < |a.children|
  {
    a.(children := a.children[i := Present(c)])
  }

  /** zend_ast_evaluate: inside a class scope every constant that is looked up is replaced, in the
      tree, by its value. */
  function Fold<V>(g: Algebra<V>, t: Table<V>, scope: bool, a: Tree<V>): Folded<V>
    decreases a, 0
  {
    match a
    case Leaf(lit) =>
      var r := Resolve(g, t, lit);
      Folded(r, if scope && r.Value? then Leaf(Plain(r.v)) else a)
    case Node(kind, children) =>
      match kind
      case Unsupported => Folded(Fatal, a)
      case InitArray => FoldPairs(g, t, scope, a, 0, g.empty)
      case Simple(s) =>
        if !Has(a, 0) then Folded(Fatal, a)
        else
          var f := Fold(g, t, scope, children[0].tree);
          var a1 := SetChild(a, 0, f.tree);
          if f.r.Fatal? then Folded(Fatal, a1)
          else
            match PlanOf(g, s, Has(a, 1), f.r.v)
            case Done(v) => Folded(Value(v), a1)
            case More(i) =>
              if !Has(a, i) then Folded(Fatal, a1)
              else
                var f' := Fold(g, t, scope, children[i].tree);
                var a2 := SetChild(a1, i, f'.tree);
                Folded(if f'.r.Fatal? then Fatal else Value(Finish(g, s, f.r.v, f'.r.v)), a2)
  }

  function FoldPairs<V>(g: Algebra<V>, t: Table<V>, scope: bool, a: Tree<V>, i: nat, acc: V): (r: Folded<V>)
    requires a.Node?
    ensures r.tree.Node? && r.tree.kind == a.kind && |r.tree.children| == |a.children|
    decreases a, 0, |a.children| - i
  {
    if i >= |a.children| then Folded(Value(acc), a)
    else if !Has(a, i + 1) then Folded(Fatal, a)
    else
      var k := FoldKey(g, t, scope, a, i);
      if k.0.Fatal? then Folded(Fatal, a.(children := a.children[i := k.1]))
      else
        var f := Fold(g, t, scope, a.children[i + 1].tree);
        if f.r.Fatal? then Folded(Fatal, a.(children := a.children[i := k.1][i + 1 := Present(f.tree)]))
        else
          var rest := FoldPairs(g, t, scope, a, i + 2, g.put(acc, k.0.v, f.r.v));
          Folded(rest.r, rest.tree.(children := rest.tree.children[i := k.1][i + 1 := Present(f.tree)]))
  }

  function FoldKey<V>(g: Algebra<V>, t: Table<V>, scope: bool, a: Tree<V>, i: nat): (Outcome<Maybe<V>>, Child<V>)
    requires a.Node? && i < |a.children|
    decreases a, 0, |a.children| - i, 0
  {
    if a.children[i].Absent? then (Value(Nothing), Absent)
    else
      var f := Fold(g, t, scope, a.children[i].tree);
      (if f.r.Fatal? then Fatal else Value(Just(f.r.v)), Present(f.tree))
  }

  // ---------- folding does not change the value ----------

  lemma {:induction false} FoldValue<V>(g: Algebra<V>, t: Table<V>, scope: bool, a: Tree<V>)
    ensures Fold(g, t, scope, a).r == Eval(g, t, a)
    decreases a, 0
  {
    if a.Node? {
      match a.kind
      case Unsupported =>
      case InitArray => FoldPairsValue(g, t, scope, a, 0, g.empty);
      case Simple(s) =>
        if Has(a, 0) {
          FoldValue(g, t, scope, a.children[0].tree);
          var r := Eval(g, t, a.children[0].tree);
          if r.Value? {
            var p := PlanOf(g, s, Has(a, 1), r.v);
            if p.More? && Has(a, p.i) { FoldValue(g, t, scope, a.children[p.i].tree); }
          }
        }
    }
  }

  lemma {:induction false} FoldPairsValue<V>(g: Algebra<V>, t: Table<V>, scope: bool, a: Tree<V>, i: nat, acc: V)
    requires a.Node?
    ensures FoldPairs(g, t, scope, a, i, acc).r == EvalPairs(g, t, a, i, acc)
    decreases a, 0, |a.children| - i
  {
    if i < |a.children| && Has(a, i + 1) {
      if a.children[i].Present? { FoldValue(g, t, scope, a.children[i].tree); }
      FoldValue(g, t, scope, a.children[i + 1].tree);
      var key, e := EvalKey(g, t, a, i), Eval(g, t, a.children[i + 1].tree);
      if key.Value? && e.Value? { FoldPairsValue(g, t, scope, a, i + 2, g.put(acc, key.v, e.v)); }
    }
  }

  /** After a successful evaluation inside a class, the folded tree has that value in every
      environment: evaluating it again always agrees with the first time. */
  lemma {:induction false} FoldedForGood<V>(g: Algebra<V>, t: Table<V>, t': Table<V>, a: Tree<V>)
    requires Eval(g, t, a).Value?
    ensures Eval(g, t', Fold(g, t, true, a).tree) == Eval(g, t, a)
    decreases a, 0
  {
    FoldValue(g, t, true, a);
    if a.Node? {
      match a.kind
      case InitArray =>
        FoldPairsValue(g, t, true, a, 0, g.empty);
        PairsForGood(g, t, t', a, 0, g.empty);
      case Simple(s) =>
        FoldValue(g, t, true, a.children[0].tree);
        FoldedForGood(g, t, t', a.children[0].tree);
        var r := Eval(g, t, a.children[0].tree);
        var p := PlanOf(g, s, Has(a, 1), r.v);
        if p.More? {
          FoldValue(g, t, true, a.children[p.i].tree);
          FoldedForGood(g, t, t', a.children[p.i].tree);
        }
    }
  }

  lemma {:induction false} PairsForGood<V>(g: Algebra<V>, t: Table<V>, t': Table<V>, a: Tree<V>, i: nat, acc: V)
    requires a.Node? && EvalPairs(g, t, a, i, acc).Value?
    ensures EvalPairs(g, t', FoldPairs(g, t, true, a, i, acc).tree, i, acc) == EvalPairs(g, t, a, i, acc)
    decreases a, 0, |a.children| - i
  {
    if i < |a.children| {
      if a.children[i].Present? {
        FoldValue(g, t, true, a.children[i].tree);
        FoldedForGood(g, t, t', a.children[i].tree);
      }
      FoldValue(g, t, true, a.children[i + 1].tree);
      FoldedForGood(g, t, t', a.children[i + 1].tree);
      var key, e := EvalKey(g, t, a, i), Eval(g, t, a.children[i + 1].tree);
      var acc' := g.put(acc, key.v, e.v);
      PairsForGood(g, t, t', a, i + 2, acc');
      var rest := FoldPairs(g, t, true, a, i + 2, acc').tree;
      var all := FoldPairs(g, t, true, a, i, acc).tree;
      var k, f := FoldKey(g, t, true, a, i), Fold(g, t, true, a.children[i + 1].tree);
      assert all.children == rest.children[i := k.1][i + 1 := Present(f.tree)];
      forall j | i + 2 <= j < |a.children| ensures all.children[j] == rest.children[j] { }
      assert EvalKey(g, t', all, i) == key && Eval(g, t', all.children[i + 1].tree) == e;
      SamePairs(g, t', rest, all, i + 2, acc');
    }
  }

  /** The rest of an array literal depends only on the children from `i` on. */
  lemma {:induction false} SamePairs<V>(g: Algebra<V>, t: Table<V>, a: Tree<V>, b: Tree<V>, i: nat, acc: V)
    requires a.Node? && b.Node? && |a.children| == |b.children|
    requires forall j :: i <= j < |a.children| ==> a.children[j] == b.children[j]
    ensures EvalPairs(g, t, a, i, acc) == EvalPairs(g, t, b, i, acc)
    decreases |a.children| - i
  {
    if i < |a.children| && Has(a, i + 1) {
      var key, e := EvalKey(g, t, a, i), Eval(g, t, a.children[i + 1].tree);
      if key.Value? && e.Value? { SamePairs(g, t, a, b, i + 2, g.put(acc, key.v, e.v)); }
    }
  }

  // ---------- evaluating again without folding ----------

  /** The exact condition for a leaf to be resolved under `t'` as under `t`. */
  ghost predicate SameLeaf<V>(g: Algebra<V>, t: Table<V>, t': Table<V>, lit: Literal<V>)
  {
    lit.Named? ==>
      || SameFind(t, t', lit.name, lit.unqualified)
      || (Find(t, lit.name, lit.unqualified).Missing? && lit.unqualified
          && Find(t', lit.name, true) == Found(g.text(lit.name[LastSlash(lit.name) + 1..])))
  }

  lemma SameLeafIff<V>(g: Algebra<V>, t: Table<V>, t': Table<V>, lit: Literal<V>)
    requires Grown(t, t')
    ensures Resolve(g, t', lit) == Resolve(g, t, lit) <==> SameLeaf(g, t, t', lit)
  {
    if lit.Named? { SameFindIff(t, t', lit.name, lit.unqualified); }
  }

  /** Every constant that evaluation under `t` reads has the same meaning under `t'`. */
  ghost predicate ReadsAlike<V>(g: Algebra<V>, t: Table<V>, t': Table<V>, a: Tree<V>)
    decreases a, 0
  {
    match a
    case Leaf(lit) => SameLeaf(g, t, t', lit)
    case Node(kind, children) =>
      match kind
      case Unsupported => true
      case InitArray => PairsAlike(g, t, t', a, 0)
      case Simple(s) =>
        Has(a, 0) ==>
          && ReadsAlike(g, t, t', children[0].tree)
          && var r := Eval(g, t, children[0].tree);
             r.Value? ==>
               var p := PlanOf(g, s, Has(a, 1), r.v);
               p.More? && Has(a, p.i) ==> ReadsAlike(g, t, t', children[p.i].tree)
  }

  /** Of an array literal, the pairs up to the first fatal one. */
  ghost predicate PairsAlike<V>(g: Algebra<V>, t: Table<V>, t': Table<V>, a: Tree<V>, i: nat)
    requires a.Node?
    decreases a, 0, |a.children| - i
  {
    i < |a.children| && Has(a, i + 1) ==>
      && (a.children[i].Present? ==> ReadsAlike(g, t, t', a.children[i].tree))
      && (EvalKey(g, t, a, i).Value? ==>
            && ReadsAlike(g, t, t', a.children[i + 1].tree)
            && (Eval(g, t, a.children[i + 1].tree).Value? ==> PairsAlike(g, t, t', a, i + 2)))
  }

  /** Growth of the table does not change an expression whose constants keep their meaning. */
  lemma {:induction false} EvalStable<V>(g: Algebra<V>, t: Table<V>, t': Table<V>, a: Tree<V>)
    requires Grown(t, t') && ReadsAlike(g, t, t', a)
    ensures Eval(g, t', a) == Eval(g, t, a)
    decreases a, 0
  {
    match a
    case Leaf(lit) => SameLeafIff(g, t, t', lit);
    case Node(kind, children) =>
      match kind
      case Unsupported =>
      case InitArray => PairsStable(g, t, t', a, 0, g.empty);
      case Simple(s) =>
        if Has(a, 0) {
          EvalStable(g, t, t', children[0].tree);
          var r := Eval(g, t, children[0].tree);
          if r.Value? {
            var p := PlanOf(g, s, Has(a, 1), r.v);
            if p.More? && Has(a, p.i) { EvalStable(g, t, t', children[p.i].tree); }
          }
        }
  }

  lemma {:induction false} PairsStable<V>(g: Algebra<V>, t: Table<V>, t': Table<V>, a: Tree<V>, i: nat, acc: V)
    requires a.Node? && Grown(t, t') && PairsAlike(g, t, t', a, i)
    ensures EvalPairs(g, t', a, i, acc) == EvalPairs(g, t, a, i, acc)
    decreases a, 0, |a.children| - i
  {
    if i < |a.children| && Has(a, i + 1) {
      if a.children[i].Present? { EvalStable(g, t, t', a.children[i].tree); }
      var key := EvalKey(g, t, a, i);
      if key.Value? {
        EvalStable(g, t, t', a.children[i + 1].tree);
        var e := Eval(g, t, a.children[i + 1].tree);
        if e.Value? { PairsStable(g, t, t', a, i + 2, g.put(acc, key.v, e.v)); }
      }
    }
  }

  /** So folding is unobservable when the constants read keep their meaning: folded and unfolded tree
      agree in the later environment. */
  lemma FoldingUnobservable<V>(g: Algebra<V>, t: Table<V>, t': Table<V>, scope: bool, a: Tree<V>)
    requires Grown(t, t') && ReadsAlike(g, t, t', a) && Eval(g, t, a).Value?
    ensures Eval(g, t', Fold(g, t, scope, a).tree) == Eval(g, t', a)
  {
    EvalStable(g, t, t', a);
    if scope { FoldedForGood(g, t, t', a); } else { NoScopeNoFold(g, t, a); }
  }

  /** For a single constant the condition is exact. */
  lemma LeafFoldIff<V>(g: Algebra<V>, t: Table<V>, t': Table<V>, lit: Literal<V>)
    requires Grown(t, t') && Resolve(g, t, lit).Value?
    ensures Eval(g, t', Fold(g, t, true, Leaf(lit)).tree) == Eval(g, t', Leaf(lit)) <==> SameLeaf(g, t, t', lit)
  {
    SameLeafIff(g, t, t', lit);
    FoldedForGood(g, t, t', Leaf(lit));
  }

  /** Outside a class the tree is left alone. */
  lemma {:induction false} NoScopeNoFold<V>(g: Algebra<V>, t: Table<V>, a: Tree<V>)
    ensures Fold(g, t, false, a).tree == a
    decreases a, 0
  {
    if a.Node? {
      match a.kind
      case Unsupported =>
      case InitArray => NoScopePairs(g, t, a, 0, g.empty);
      case Simple(s) =>
        if Has(a, 0) {
          NoScopeNoFold(g, t, a.children[0].tree);
          var f := Fold(g, t, false, a.children[0].tree);
          assert SetChild(a, 0, f.tree) == a;
          if f.r.Value? {
            var p := PlanOf(g, s, Has(a, 1), f.r.v);
            if p.More? && Has(a, p.i) {
              NoScopeNoFold(g, t, a.children[p.i].tree);
              assert SetChild(a, p.i, Fold(g, t, false, a.children[p.i].tree).tree) == a;
            }
          }
        }
    }
  }

  lemma {:induction false} NoScopePairs<V>(g: Algebra<V>, t: Table<V>, a: Tree<V>, i: nat, acc: V)
    requires a.Node?
    ensures FoldPairs(g, t, false, a, i, acc).tree == a
    decreases a, 0, |a.children| - i
  {
    if i < |a.children| && Has(a, i + 1) {
      if a.children[i].Present? { NoScopeNoFold(g, t, a.children[i].tree); }
      NoScopeNoFold(g, t, a.children[i + 1].tree);
      var k := FoldKey(g, t, false, a, i);
      assert k.1 == a.children[i];
      var f := Fold(g, t, false, a.children[i + 1].tree);
      assert a.children[i := k.1][i + 1 := Present(f.tree)] == a.children && a.children[i := k.1] == a.children;
      if k.0.Value? && f.r.Value? { NoScopePairs(g, t, a, i + 2, g.put(acc, k.0.v, f.r.v)); }
    }
  }

  /** With an undefined constant it shows: the name stays in the folded tree as a string even after
      the constant has been defined. */
  lemma UndefinedSticks<V>(g: Algebra<V>, v: V)
    ensures var a: Tree<V> := Leaf(Named("X", true));
            var t: Table<V> := map[];
            var t' := t["X" := Constants.Entry(v, true)];
            && Grown(t, t') && Eval(g, t', a) == Value(v)
            && Eval(g, t', Fold(g, t, true, a).tree) == Value(g.text("X"))
  {
    assert LastSlash("X") == -1 by { assert "X"[0] != '\\'; }
    assert "X"[0..] == "X";
  }

  // ---------- compile-time constants and copies ----------

  /** zend_ast_is_ct_constant. */
  predicate CompileTime<V>(a: Tree<V>)
  {
    match a
    case Leaf(lit) => lit.Plain?
    case Node(_, children) => forall i :: 0 <= i < |children| && children[i].Present? ==> CompileTime(children[i].tree)
  }

  /** Such a tree reads no constant, so its value is the same in all environments. */
  lemma {:induction false} CompileTimeValue<V>(g: Algebra<V>, t: Table<V>, t': Table<V>, a: Tree<V>)
    requires CompileTime(a)
    ensures Eval(g, t, a) == Eval(g, t', a)
  {
    ReadsNothing(g, map[], t, a);
    ReadsNothing(g, map[], t', a);
    EvalStable(g, map[], t, a);
    EvalStable(g, map[], t', a);
  }

  lemma {:induction false} ReadsNothing<V>(g: Algebra<V>, t: Table<V>, t': Table<V>, a: Tree<V>)
    requires CompileTime(a)
    ensures ReadsAlike(g, t, t', a)
    decreases a, 0
  {
    if a.Node? {
      match a.kind
      case Unsupported =>
      case InitArray => PairsReadNothing(g, t, t', a, 0);
      case Simple(s) =>
        if Has(a, 0) {
          ReadsNothing(g, t, t', a.children[0].tree);
          var r := Eval(g, t, a.children[0].tree);
          if r.Value? {
            var p := PlanOf(g, s, Has(a, 1), r.v);
            if p.More? && Has(a, p.i) { ReadsNothing(g, t, t', a.children[p.i].tree); }
          }
        }
    }
  }

  lemma {:induction false} PairsReadNothing<V>(g: Algebra<V>, t: Table<V>, t': Table<V>, a: Tree<V>, i: nat)
    requires CompileTime(a) && a.Node?
    ensures PairsAlike(g, t, t', a, i)
    decreases a, 0, |a.children| - i
  {
    if i < |a.children| && Has(a, i + 1) {
      if a.children[i].Present? { ReadsNothing(g, t, t', a.children[i].tree); }
      ReadsNothing(g, t, t', a.children[i + 1].tree);
      PairsReadNothing(g, t, t', a, i + 2);
    }
  }

  /** zend_ast_copy. */
  function Copy<V>(a: Tree<V>): Tree<V>
  {
    match a
    case Leaf(lit) => Leaf(lit)
    case Node(kind, children) =>
      if |children| == 0 then Node(kind, [])
      else Node(kind, seq(|children|, i requires 0 <= i < |children| =>
                            if children[i].Absent? then Absent else Present(Copy(children[i].tree))))
  }

  lemma {:induction false} CopyAlike<V>(g: Algebra<V>, t: Table<V>, scope: bool, a: Tree<V>)
    ensures Eval(g, t, Copy(a)) == Eval(g, t, a) && Fold(g, t, scope, Copy(a)) == Fold(g, t, scope, a)
  {
    CopySame(a);
  }

  lemma {:induction false} CopySame<V>(a: Tree<V>)
    ensures Copy(a) == a
  {
    if a.Node? {
      forall i | 0 <= i < |a.children| && a.children[i].Present? ensures Copy(a.children[i].tree) == a.children[i].tree {
        CopySame(a.children[i].tree);
      }
      assert Copy(a).children == a.children;
    }
  }
}
