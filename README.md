# backprop: a forward-mode differentiation engine, modelled in Dafny

The program evaluates expression trees built from named constants, sums and
products, and differentiates them with respect to a named constant. Every node
implements one protocol of three queries:

- `compute_value`: the value of the subtree, recomputed on every call;
- `has_node(name)`: whether a constant (`ConstVal`) of that name occurs in the subtree;
- `derivative_over(name)`: the partial derivative with respect to that constant.
  A sum (`AddFunc`) asks its left operand first and scales the chosen operand's
  derivative by 1. A product (`MultiplyFunc`) scales it by the freshly computed
  value of the other operand. A name found in neither operand aborts with
  "Not found".

The model (module `Backprop`, file `backprop.dfy`) turns the three node structs
into one datatype `Node = ConstVal | AddFunc | MultiplyFunc`. The three queries
become the recursive functions `ComputeValue`, `HasNode` and `DerivativeOver`.
The abort becomes the `NotFound(name)` outcome of `DerivativeOver`, and a
recursive call that aborts passes its outcome through unchanged. Numbers are
mathematical integers; the engine only adds and multiplies them.

Module `Calculus` (file `calculus.dfy`) gives reference definitions and relates
the engine to them:

- `LeafNames` and `LeafCount` list the constants of a tree.
- `ChainRule` is the textbook derivative. It applies the sum and product rules to
  both operands, so it counts every occurrence of a name.
- `ValueAt(f, n, x)` is the value of `f` when the constants named `n` hold `x`:
  the tree's value as a function of one variable.
- `LeafValue` is the stored value of the first constant of a name.

The main results are these. When exactly one constant has the queried name,
the engine's answer equals `ChainRule`. It is also the slope of the tree's
value as an affine function of that constant's value. When a name occurs in
both operands, the engine is left-biased: `X + X` and `X * X` get half of
their textbook derivatives (`SharedNameLeftBias`). Module `WorkedExample`
checks the tree that the program's entry point builds.

Two points about the code, on which the model follows it:

- Composite nodes keep no cache of their children's values:
  `MultiplyFunc::derivative_over` calls `compute_value` on the other operand
  every time. So the model has no evaluate-then-derive ordering and no stale
  values.
- `compute_value` returns only the number; no sequence of leaf names is
  collected during evaluation.

## Model

| member | source | states |
|---|---|---|
| `Backprop.DerivativeOver` | src/main.rs:23-104 | The query aborts exactly when `HasNode` is false, at every node kind. The abort names the queried name. A recursive call made after a successful `has_node` check never aborts. |
| `Calculus.HasNodeIffLeafName` | src/main.rs:33-112 | `has_node(n)` holds exactly when `n` is the name of a constant in the subtree. Equivalently, at least one constant has that name. A composite's own name is never consulted: it is found only when some constant carries it. |
| `Calculus.LeafQueries` | src/main.rs:22-36 | A constant's value is its stored value. It contains exactly its own name. Its derivative over that name is 1; over any other name the query aborts. |
| `Calculus.SumRule` | src/main.rs:56-75 | A sum's value is the sum of its operands' values. Its derivative is the left operand's when the left operand contains the name. Otherwise it is the right operand's, including the abort. |
| `Calculus.ProductRule` | src/main.rs:94-113 | A product's value is the product of its operands' values. If the left operand contains the name, the derivative is the right operand's value times the left operand's derivative. Otherwise, if the right operand contains it, it is the left value times the right derivative. If neither does, the query aborts. |
| `Calculus.LeftBias` | src/main.rs:58-100 | Once the left operand contains the name, replacing the right operand (or the composite's name) leaves a sum's derivative unchanged. A product's derivative is also unchanged if the new right operand has the same value. The right operand's own occurrences contribute nothing. |
| `Calculus.CompositeNamesIgnored` | src/main.rs:39-112 | Two trees that differ only in the names of composites have the same value, the same `has_node` answers and the same derivatives. |
| `Calculus.DerivativeIsChainRule` | src/main.rs:58-103 | When exactly one constant carries the name, the engine's single-branch derivative equals the full sum-rule and product-rule derivative. |
| `Calculus.ValueAtStoredValue` | src/main.rs:30-108 | When exactly one constant carries the name, `ValueAt` at that constant's stored value is `compute_value` of the tree. So `ValueAt` is the tree's value seen as a function of that constant. |
| `Calculus.DerivativeIsSlope` | src/main.rs:58-108 | When exactly one constant carries the name, the derivative exists. The tree's value, as a function of that constant's value `x`, is `value at 0 + x * derivative`. So the answer is the true partial derivative. |
| `Calculus.SharedNameLeftBias` | src/main.rs:58-100 | For a name in both operands, the engine returns 1 for `X + X` and 3 for `X * X` at `X = 3`. The textbook derivatives are 2 and 6. |
| `WorkedExample.TreeValue` | src/main.rs:116-125 | The tree `((A+B)*C)*D` with A=10, B=5, C=20, D=25 has value 7500, and its leaf names are exactly A, B, C and D. |
| `WorkedExample.TreeDerivativesInSum` | src/main.rs:116-125 | The derivative over A, and over B, is C * D = 500. |
| `WorkedExample.TreeDerivativesInProducts` | src/main.rs:116-125 | The derivative over C is (A + B) * D = 375, and over D it is (A + B) * C = 300. |
| `WorkedExample.TreeUnknownNames` | src/main.rs:116-125 | Queries for the composite names "A+B" and "(A+B)CD", and for the absent name "Z", abort with that name. |

## Left out

- Console output of the entry point (the two `println!` calls at src/main.rs:126-127): I/O. The tree it builds is kept as `WorkedExample.Tree`.
- IEEE-754 `f64` arithmetic: values are mathematical integers with exact sums and products. Fractional constants, rounding, overflow to infinity and NaN are not modelled. The proofs use only the ring laws of `+` and `*`, which `f64` rounding does not obey exactly.
- The panic itself: it is modelled as the `NotFound(name)` outcome, not as a process abort. An outcome returned by a recursive call is passed up unchanged, as the unwinding panic would be.
- Rust generics and trait dispatch (`Function`, `AddFunc<Op1, Op2>`): replaced by one closed datatype. The three structs are its only implementors.
- The `new` constructors: they only store their arguments, so they are the datatype constructors.
- Composite `name` fields: kept in the datatype, but no query reads them (`Calculus.CompositeNamesIgnored`).
