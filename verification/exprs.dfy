/** Lazy elementwise expressions over integer vectors.
  *
  * An expression is a tree whose leaves are vector snapshots and whose inner
  * nodes are the two binary operators AddExpr and SubExpr. Nothing is computed
  * when a tree is built: `Eval(e, i)` walks the tree for one index and
  * `Len(e)` reports the length the root claims. Where the program would stop
  * with a panic (an index past the end of a vector, the length assertion of
  * SubExpr) the model yields the explicit outcome `Panic`.
  */
module Exprs {

  /** The result of a call that may abort the program. */
  datatype Outcome<+T> = Value(value: T) | Panic

  datatype Expr =
    | Leaf(data: seq<int>)
    | AddExpr(left: Expr, right: Expr)
    | SubExpr(left: Expr, right: Expr)

  /** `len()`: a leaf reports its element count, AddExpr trusts its left
    * operand, SubExpr asserts that both operands report the same length. */
  function Len(e: Expr): Outcome<nat>
  {
    match e
    case Leaf(d) => Value(|d|)
    case AddExpr(l, _) => Len(l)
    case SubExpr(l, r) =>
      var n, m := Len(l), Len(r);
      if n.Panic? || m.Panic? || n.value != m.value then Panic else n
  }

  /** `eval(index)`: a leaf clones the element (bounds-checked indexing),
    * AddExpr adds its operands' values, SubExpr first repeats the length
    * assertion of `len()` and then subtracts. */
  function Eval(e: Expr, i: nat): Outcome<int>
  {
    match e
    case Leaf(d) => if i < |d| then Value(d[i]) else Panic
    case AddExpr(l, r) =>
      var x, y := Eval(l, i), Eval(r, i);
      if x.Panic? || y.Panic? then Panic else Value(x.value + y.value)
    case SubExpr(l, r) =>
      if Len(e).Panic? then Panic
      else
        var x, y := Eval(l, i), Eval(r, i);
        if x.Panic? || y.Panic? then Panic else Value(x.value - y.value)
  }

  /** `left.add(right)`: wraps both operands into an AddExpr node and computes
    * nothing. The node's length is the left operand's, whatever the right
    * operand's is, and each index evaluates to the sum of the operands. */
  function Add(left: Expr, right: Expr): (e: Expr)
    ensures Len(e) == Len(left)
    ensures forall i: nat :: Eval(e, i).Value? <==> Eval(left, i).Value? && Eval(right, i).Value?
    ensures forall i: nat :: Eval(e, i).Value? ==> Eval(e, i).value == Eval(left, i).value + Eval(right, i).value
  {
    AddExpr(left, right)
  }

  /** `left.sub(right)`: wraps both operands into a SubExpr node and computes
    * nothing. Measuring or evaluating the node aborts unless both operands
    * report the same length. */
  function Sub(left: Expr, right: Expr): (e: Expr)
    ensures Len(e).Value? <==> Len(left).Value? && Len(left) == Len(right)
    ensures Len(e).Value? ==> Len(e) == Len(left)
    ensures forall i: nat :: Eval(e, i).Value? <==> Len(e).Value? && Eval(left, i).Value? && Eval(right, i).Value?
    ensures forall i: nat :: Eval(e, i).Value? ==> Eval(e, i).value == Eval(left, i).value - Eval(right, i).value
  {
    SubExpr(left, right)
  }

  /** A tree in which every binary node joins operands of equal length. */
  predicate WellFormed(e: Expr)
  {
    match e
    case Leaf(_) => true
    case AddExpr(l, r) => WellFormed(l) && WellFormed(r) && Len(l) == Len(r)
    case SubExpr(l, r) => WellFormed(l) && WellFormed(r) && Len(l) == Len(r)
  }

  /** Eager elementwise sum of two vectors of equal length. */
  function Sum(a: seq<int>, b: seq<int>): (s: seq<int>)
    requires |a| == |b|
    ensures |s| == |a|
    ensures forall k :: 0 <= k < |s| ==> s[k] == a[k] + b[k]
  {
    if a == [] then [] else [a[0] + b[0]] + Sum(a[1..], b[1..])
  }

  /** Eager elementwise difference of two vectors of equal length. */
  function Difference(a: seq<int>, b: seq<int>): (s: seq<int>)
    requires |a| == |b|
    ensures |s| == |a|
    ensures forall k :: 0 <= k < |s| ==> s[k] == a[k] - b[k]
  {
    if a == [] then [] else [a[0] - b[0]] + Difference(a[1..], b[1..])
  }

  /** The eager meaning of a well-formed tree: every operator applied to
    * whole vectors, one intermediate vector per node. A well-formed tree
    * never aborts when measured, and its length is that of its meaning. */
  function Dense(e: Expr): (s: seq<int>)
    requires WellFormed(e)
    ensures Len(e) == Value(|s|)
  {
    match e
    case Leaf(d) => d
    case AddExpr(l, r) => Sum(Dense(l), Dense(r))
    case SubExpr(l, r) => Difference(Dense(l), Dense(r))
  }

  /** Lazy evaluation of a well-formed tree agrees with its eager meaning:
    * every index below the length yields the element of `Dense(e)`, and
    * every index at or past it aborts. */
  lemma {:induction false} EvalWellFormed(e: Expr, i: nat)
    requires WellFormed(e)
    ensures i < |Dense(e)| ==> Eval(e, i) == Value(Dense(e)[i])
    ensures |Dense(e)| <= i ==> Eval(e, i) == Panic
  {
    match e
    case Leaf(_) =>
    case AddExpr(l, r) =>
      EvalWellFormed(l, i);
      EvalWellFormed(r, i);
    case SubExpr(l, r) =>
      EvalWellFormed(l, i);
      EvalWellFormed(r, i);
  }
}
