# trait_vec: lazy elementwise vector expressions, modelled in Dafny

The library builds arithmetic over vectors lazily. A `Vector` is a growable
sequence of elements. Combining vectors with `add` and `sub` builds a tree of
`AddExpr` and `SubExpr` nodes and computes nothing. Every node, and every
vector, offers `eval(index)` and `len()`. The inherited `to_vec()` walks the
indices `0 .. len()` in order and pushes `eval(i)` into a fresh `Vector`.

The model has three modules:

- `Exprs` (`exprs.dfy`): the expression tree as a datatype
  `Leaf(data) | AddExpr(left, right) | SubExpr(left, right)`, the total
  functions `Len` and `Eval`, and the constructors `Add` and `Sub` (the
  blanket `AlgebraTrait` implementation). Where the program would abort (an
  index past the end of a vector, or the `assert!` of `SubExpr` on operands
  of different lengths), `Len` and `Eval` return the outcome `Panic`.
  `WellFormed` says every binary node joins operands of equal length, and
  `Dense` is an independent, eager meaning of such a tree: `Sum` and
  `Difference` applied to whole vectors.
- `Vectors` (`vector.dfy`): `Vector` as a class whose `data` field the
  methods `Push` and `Pop` update in place. `AsExpr` is the vector used as
  an expression leaf, and `FromSeq` is the `tvec!` literal.
- `Materialize` (`to_vec.dfy`): `ToVec` is the `to_vec()` loop. It is
  proved against the specification function `Materialized`, built from
  `Prefix`, and the lemmas state what `Materialized` means.

Main results:

- `to_vec()` yields `s` exactly when `len()` is `|s|` and `eval(i) == s[i]`
  for each index (`MaterializedMeaning`). It aborts exactly when `len()`
  or some `eval(i)` aborts (`MaterializedPanics`).
- On a well-formed tree, lazy evaluation agrees with the eager meaning. It
  never aborts below the length and always aborts at or past it
  (`EvalWellFormed`, `MaterializedWellFormed`).
- Materialising a vector gives back its contents (`MaterializedLeaf`).
- `a.add(b).sub(c)` yields `a[i] + b[i] - c[i]` (`AddThenSub`).
- `SubExpr` with mismatched operands always aborts (`SubMismatchPanics`).
  `AddExpr` does not check: it silently truncates a longer right operand
  (`AddLongerRight`). It aborts on a shorter right operand only through
  that vector's own bounds check (`AddShorterRight`).

Element type is `int`, so the arithmetic is unbounded.

## Model

| member | source | states |
|---|---|---|
| `Exprs.Add` | trait_vec/src/lib.rs:75-80 | the node's length is the left operand's, whatever the right's is; index `i` evaluates iff both operands evaluate there, and then to their sum |
| `Exprs.Sub` | trait_vec/src/lib.rs:82-87 | the node's length is defined iff both operands' lengths are defined and equal, and is then the left's; index `i` evaluates iff the length check passes and both operands evaluate, and then to their difference |
| `Exprs.Dense` | trait_vec/src/lib.rs:122-125 | a tree whose binary nodes join equal-length operands never aborts in `len()`, and its length equals the length of its eager elementwise meaning |
| `Exprs.EvalWellFormed` | trait_vec/src/lib.rs:37-120 | on a well-formed tree, `eval(i)` equals element `i` of the eager meaning below the length and aborts at or past it |
| `Vectors.Vector.constructor` | trait_vec/src/lib.rs:19-21 | a new vector is empty, with length 0 |
| `Vectors.Vector.AsExpr` | trait_vec/src/lib.rs:36-44 | a vector used as an expression is a well-formed leaf |
| `Vectors.Vector.Len` | trait_vec/src/lib.rs:31-33 | the vector's own `len()` equals the length it reports as an expression |
| `Vectors.Vector.Eval` | trait_vec/src/lib.rs:37-39 | `eval(index)` succeeds iff `index < len()` and then returns the element at `index` |
| `Vectors.Vector.Push` | trait_vec/src/lib.rs:23-25 | appends the value: length grows by one, the value sits at the old length, earlier elements are kept |
| `Vectors.Vector.Pop` | trait_vec/src/lib.rs:27-29 | on an empty vector returns None and changes nothing; otherwise returns the last element and leaves the old prefix |
| `Vectors.FromSeq` | trait_vec/src/lib.rs:129-140 | pushing the given values in order into a new vector yields exactly those values |
| `Materialize.ToVec` | trait_vec/src/lib.rs:4-10 | aborts exactly when `Materialized` does; otherwise returns a fresh vector whose contents are `Materialized(e)` |
| `Materialize.PrefixMeaning` | trait_vec/src/lib.rs:5-8 | after `k` iterations the pushed values are exactly `eval(0) .. eval(k-1)`, in order |
| `Materialize.PrefixPanics` | trait_vec/src/lib.rs:5-8 | the first `k` iterations abort iff some index below `k` aborts |
| `Materialize.MaterializedMeaning` | trait_vec/src/lib.rs:4-10 | `to_vec()` yields `s` iff `len()` is the length of `s` and `eval(i) == s[i]` for every index of `s` |
| `Materialize.MaterializedPanics` | trait_vec/src/lib.rs:4-10 | `to_vec()` aborts iff `len()` aborts or some index below the length aborts |
| `Materialize.MaterializedLeaf` | trait_vec/src/lib.rs:36-44 | round trip: materialising a vector yields its own contents |
| `Materialize.MaterializedWellFormed` | trait_vec/src/lib.rs:4-10 | `to_vec()` of a well-formed tree never aborts and equals its eager elementwise meaning |
| `Materialize.AddThenSub` | trait_vec/src/lib.rs:75-87 | for equal-length `a`, `b`, `c`, `a.add(b).sub(c).to_vec()` has their length and element `i` equal to `a[i] + b[i] - c[i]` |
| `Materialize.SubMismatchPanics` | trait_vec/src/lib.rs:117-125 | a `SubExpr` over operands of different lengths aborts on every `eval` and in `to_vec()` |
| `Materialize.AddLongerRight` | trait_vec/src/lib.rs:55-61 | for every left vector `a` and right vector `b` at least as long, `a.add(b).to_vec()` has the length of `a` and element `i` equal to `a[i] + b[i]`: the extra elements of `b` go unnoticed |
| `Materialize.AddShorterRight` | trait_vec/src/lib.rs:55-57 | for every right vector `b` shorter than the left vector `a`, `a.add(b).to_vec()` aborts, because the index equal to the length of `b` is past its end |
| `Materialize.AddLongerRightTruncates` | trait_vec/src/lib.rs:59-61 | `[1,2].add([10,20,30]).to_vec()` is `[11,22]`: the longer right operand goes unnoticed |
| `Materialize.AddShorterRightPanics` | trait_vec/src/lib.rs:55-57 | `[1,2,3].add([1]).to_vec()` aborts, because index 1 is past the right operand's end |
| `Materialize.DemoScenario` | trait_vec/src/main.rs:4-8 | `[1,2,3] + [4,5,6] - [4,5,6]` materialises to `[1,2,3]`, and `[1,2,3] + [4,5,6]` to `[5,7,9]` |

## Left out

- Generic element types and the trait bounds `Clone`, `Add<Output = T>` and `Sub<Output = T>`: elements are `int`. Cloning an integer is the identity.
- Machine-integer overflow (a panic in debug builds, wrap-around in release builds): arithmetic is unbounded.
- Aborts are the value `Panic`, not process termination. When `ToVec` aborts, the partly filled vector is dropped, since the program would never observe it.
- Moves and ownership: `add` and `sub` consume their operands in the source. Here trees are immutable values, so no operand can be aliased or changed later. `AsExpr` takes a snapshot of a vector's contents as a leaf.
- `#[derive(Debug)]` formatting and the `println!` of the demo program. The demo's `vec_expr!` macro is not defined in the library and is not part of this model; `DemoScenario` uses the demo's values with explicit `add`/`sub`.
- The commented-out `impl std::ops::Add` (trait_vec/src/lib.rs:90-105) is dead code.
- Unlike `SubExpr`, which asserts equal operand lengths (trait_vec/src/lib.rs:118, 123), `AddExpr` checks nothing about its right operand (trait_vec/src/lib.rs:59-61). The model follows the code and states the consequences in `AddLongerRight` and `AddShorterRight`.
