/** Materialisation: the `to_vec` operation every expression inherits. It asks
  * the root for its length once, then evaluates indices 0, 1, ... in order and
  * pushes each value into a fresh vector; the first abort ends the program.
  */
module Materialize {
  import opened Exprs
  import Vectors

  /** The values of indices 0 .. k-1 of `e`, or Panic if evaluating any of
    * them (in increasing order) aborts. */
  function Prefix(e: Expr, k: nat): Outcome<seq<int>>
  {
    if k == 0 then Value([])
    else
      var p, x := Prefix(e, k - 1), Eval(e, k - 1);
      if p.Panic? || x.Panic? then Panic else Value(p.value + [x.value])
  }

  /** What `to_vec` produces: Panic if the length or any element aborts,
    * otherwise the vector of all elements. */
  function Materialized(e: Expr): Outcome<seq<int>>
  {
    match Len(e)
    case Panic => Panic
    case Value(n) => Prefix(e, n)
  }

  /** `to_vec()`: a fresh vector with every element of `e`, computed by one
    * pass over the indices. The tree itself is an immutable value, so it is
    * left as it was. */
  method ToVec(e: Expr) returns (r: Outcome<Vectors.Vector>)
    ensures r.Panic? <==> Materialized(e).Panic?
    ensures r.Value? ==> fresh(r.value) && r.value.data == Materialized(e).value
  {
    var len := Len(e);
    if len.Panic? {
      return Panic;
    }
    var result := new Vectors.Vector();
    for i := 0 to len.value
      invariant fresh(result)
      invariant Prefix(e, i) == Value(result.data)
    {
      var x := Eval(e, i);
      if x.Panic? {
        assert 0 <= i < len.value && Eval(e, i) == Panic;
        PrefixPanics(e, len.value);
        return Panic;
      }
      result.Push(x.value);
    }
    return Value(result);
  }

  /** A prefix succeeds with `s` exactly when `s` lists, in order, the
    * values of the first `k` indices. */
  lemma {:induction false} PrefixMeaning(e: Expr, k: nat, s: seq<int>)
    ensures Prefix(e, k) == Value(s) <==> |s| == k && forall i :: 0 <= i < k ==> Eval(e, i) == Value(s[i])
  {
    if k > 0 {
      var p := Prefix(e, k - 1);
      if p.Value? {
        PrefixMeaning(e, k - 1, p.value);
      }
      if |s| == k {
        PrefixMeaning(e, k - 1, s[..k - 1]);
        assert s == s[..k - 1] + [s[k - 1]];
      }
    }
  }

  /** A prefix aborts exactly when one of its indices aborts. */
  lemma {:induction false} PrefixPanics(e: Expr, k: nat)
    ensures Prefix(e, k) == Panic <==> exists i :: 0 <= i < k && Eval(e, i) == Panic
  {
    if k > 0 {
      PrefixPanics(e, k - 1);
      if Eval(e, k - 1) == Panic {
        var j: nat := k - 1;
        assert Prefix(e, k) == Panic && j < k && Eval(e, j) == Panic;
        assert exists i :: 0 <= i < k && Eval(e, i) == Panic;
      } else {
        forall i | 0 <= i < k && Eval(e, i) == Panic
          ensures 0 <= i < k - 1 && Eval(e, i) == Panic
        {
        }
      }
    }
  }

  /** `to_vec` yields `s` exactly when the length is `|s|` and element `i`
    * of `s` is `eval(i)` for every index. */
  lemma MaterializedMeaning(e: Expr, s: seq<int>)
    ensures Materialized(e) == Value(s) <==>
              Len(e) == Value(|s|) && forall i :: 0 <= i < |s| ==> Eval(e, i) == Value(s[i])
  {
    if Len(e).Value? {
      PrefixMeaning(e, Len(e).value, s);
    }
  }

  /** `to_vec` aborts exactly when `len()` aborts or some index below the
    * length aborts. */
  lemma MaterializedPanics(e: Expr)
    ensures Materialized(e) == Panic <==>
              Len(e) == Panic || exists i :: 0 <= i < Len(e).value && Eval(e, i) == Panic
  {
    if Len(e).Value? {
      PrefixPanics(e, Len(e).value);
    }
  }

  /** Round trip: materialising a vector used as an expression gives back
    * its contents. */
  lemma MaterializedLeaf(d: seq<int>)
    ensures Materialized(Leaf(d)) == Value(d)
  {
    MaterializedMeaning(Leaf(d), d);
  }

  /** Lazy materialisation of a well-formed tree never aborts and agrees
    * with the eager meaning. */
  lemma MaterializedWellFormed(e: Expr)
    requires WellFormed(e)
    ensures Materialized(e) == Value(Dense(e))
  {
    forall i | 0 <= i < |Dense(e)|
      ensures Eval(e, i) == Value(Dense(e)[i])
    {
      EvalWellFormed(e, i);
    }
    MaterializedMeaning(e, Dense(e));
  }

  /** Chaining `a.add(b).sub(c)` over vectors of one length gives
    * `a[i] + b[i] - c[i]` at every index. */
  lemma AddThenSub(a: seq<int>, b: seq<int>, c: seq<int>)
    requires |a| == |b| == |c|
    ensures Materialized(Sub(Add(Leaf(a), Leaf(b)), Leaf(c))).Value?
    ensures var s := Materialized(Sub(Add(Leaf(a), Leaf(b)), Leaf(c))).value;
            |s| == |a| && forall i :: 0 <= i < |a| ==> s[i] == a[i] + b[i] - c[i]
  {
    var sum := Add(Leaf(a), Leaf(b));
    assert WellFormed(Leaf(a)) && WellFormed(Leaf(b)) && Len(Leaf(a)) == Len(Leaf(b));
    assert Dense(sum) == Sum(a, b);
    MaterializedWellFormed(Sub(sum, Leaf(c)));
    assert Dense(Sub(sum, Leaf(c))) == Difference(Sum(a, b), c);
  }

  /** Subtracting operands of different lengths always aborts, in `len()`
    * and therefore in `to_vec`, and never yields a result. */
  lemma SubMismatchPanics(l: Expr, r: Expr, i: nat)
    requires Len(l).Value? && Len(r).Value? && Len(l) != Len(r)
    ensures Eval(Sub(l, r), i) == Panic
    ensures Materialized(Sub(l, r)) == Panic
  {
  }

  /** AddExpr does not check its right operand's length: a right operand at
    * least as long as the left one is silently cut to the left's length. */
  lemma AddLongerRight(a: seq<int>, b: seq<int>)
    requires |a| <= |b|
    ensures Materialized(Add(Leaf(a), Leaf(b))).Value?
    ensures var s := Materialized(Add(Leaf(a), Leaf(b))).value;
            |s| == |a| && forall i :: 0 <= i < |a| ==> s[i] == a[i] + b[i]
  {
    var e := Add(Leaf(a), Leaf(b));
    var s := seq(|a|, i requires 0 <= i < |a| => a[i] + b[i]);
    MaterializedMeaning(e, s);
  }

  /** A right operand shorter than the left one makes AddExpr read past its
    * end, which aborts in that operand's own bounds check. */
  lemma AddShorterRight(a: seq<int>, b: seq<int>)
    requires |b| < |a|
    ensures Materialized(Add(Leaf(a), Leaf(b))) == Panic
  {
    var e := Add(Leaf(a), Leaf(b));
    assert Eval(e, |b|) == Panic;
    MaterializedPanics(e);
  }

  /** An instance of `AddLongerRight`: `[1,2]` plus `[10,20,30]` is `[11,22]`. */
  lemma AddLongerRightTruncates()
    ensures Materialized(Add(Leaf([1, 2]), Leaf([10, 20, 30]))) == Value([11, 22])
  {
    MaterializedMeaning(Add(Leaf([1, 2]), Leaf([10, 20, 30])), [11, 22]);
  }

  /** An instance of `AddShorterRight`: `[1,2,3]` plus `[1]` aborts at index 1. */
  lemma AddShorterRightPanics()
    ensures Materialized(Add(Leaf([1, 2, 3]), Leaf([1]))) == Panic
  {
    AddShorterRight([1, 2, 3], [1]);
  }

  /** The demonstration program's values: [1,2,3] plus [4,5,6] minus
    * [4,5,6] is [1,2,3], and [1,2,3] plus [4,5,6] is [5,7,9]. */
  lemma DemoScenario()
    ensures Materialized(Sub(Add(Leaf([1, 2, 3]), Leaf([4, 5, 6])), Leaf([4, 5, 6]))) == Value([1, 2, 3])
    ensures Materialized(Add(Leaf([1, 2, 3]), Leaf([4, 5, 6]))) == Value([5, 7, 9])
  {
    MaterializedMeaning(Sub(Add(Leaf([1, 2, 3]), Leaf([4, 5, 6])), Leaf([4, 5, 6])), [1, 2, 3]);
    MaterializedMeaning(Add(Leaf([1, 2, 3]), Leaf([4, 5, 6])), [5, 7, 9]);
  }
}
