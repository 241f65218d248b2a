/** The growable vector: an owned sequence of integers that is both the
  * container callers fill and the leaf of every expression tree.
  */
module Vectors {
  import Exprs

  datatype Option<+T> = None | Some(value: T)

  class Vector {
    var data: seq<int>

    /** `Vector::new()`: an empty vector. */
    constructor ()
      ensures data == []
      ensures Len() == 0
    {
      data := [];
    }

    /** The vector as an expression leaf, holding its current elements. */
    function AsExpr(): (e: Exprs.Expr)
      reads this
      ensures Exprs.WellFormed(e)
    {
      Exprs.Leaf(data)
    }

    /** `len()`: the element count, equal to what the vector reports when
      * it is used as an expression. */
    function Len(): (n: nat)
      reads this
      ensures Exprs.Len(AsExpr()) == Exprs.Value(n)
    {
      |data|
    }

    /** `eval(index)` of the vector used as an expression: a copy of the
      * element at `index`, or an abort when `index` is not below `Len()`. */
    function Eval(index: nat): (r: Exprs.Outcome<int>)
      reads this
      ensures r.Value? <==> index < Len()
      ensures r.Value? ==> r.value == data[index]
    {
      Exprs.Eval(AsExpr(), index)
    }

    /** `push(value)`: appends at the end, keeping every earlier element. */
    method Push(value: int)
      modifies this
      ensures data == old(data) + [value]
      ensures Len() == old(Len()) + 1 && Eval(old(Len())) == Exprs.Value(value)
    {
      data := data + [value];
    }

    /** `pop()`: removes and returns the last element, or returns None and
      * changes nothing when the vector is empty. */
    method Pop() returns (r: Option<int>)
      modifies this
      ensures old(data) == [] ==> r == None && data == []
      ensures old(data) != [] ==> r == Some(old(data)[|old(data)| - 1]) && data == old(data)[..|old(data)| - 1]
    {
      if data == [] {
        r := None;
      } else {
        r := Some(data[|data| - 1]);
        data := data[..|data| - 1];
      }
    }
  }

  /** The `tvec!` literal: a new vector holding `values`, pushed in order. */
  method FromSeq(values: seq<int>) returns (v: Vector)
    ensures fresh(v)
    ensures v.data == values
  {
    v := new Vector();
    for k := 0 to |values|
      invariant v.data == values[..k]
    {
      v.Push(values[k]);
    }
  }
}
