/// A forward-mode differentiation engine over expression trees.
///
/// Every node of the tree answers three questions: its value, whether a leaf
/// with a given name occurs below it, and the partial derivative of its value
/// with respect to such a leaf. Numbers are mathematical integers standing in
/// for `f64`: the engine only adds and multiplies them.

module Backprop {

  /** One node of an expression tree. The three constructors are the only
      implementations of the node protocol; a composite carries a name of its
      own that no query ever looks at. */
  datatype Node =
    | ConstVal(val: int, name: string)
    | AddFunc(op1: Node, op2: Node, name: string)
    | MultiplyFunc(op1: Node, op2: Node, name: string)

  /** The outcome of a derivative query: a value, or the abort that the
      engine raises when no leaf of the queried name is reachable. */
  datatype Derivative =
    | Ok(value: int)
    | NotFound(name: string)

  /** The value of the subtree rooted at `f`; nothing is cached, every call
      recomputes the children. */
  function ComputeValue(f: Node): (v: int)
  {
    match f
    case ConstVal(v, _) => v
    case AddFunc(op1, op2, _) => ComputeValue(op1) + ComputeValue(op2)
    case MultiplyFunc(op1, op2, _) => ComputeValue(op1) * ComputeValue(op2)
  }

  /** Whether a leaf named `n` occurs in the subtree; a composite's own name
      is not compared. */
  predicate HasNode(f: Node, n: string)
  {
    match f
    case ConstVal(_, name) => name == n
    case AddFunc(op1, op2, _) => HasNode(op1, n) || HasNode(op2, n)
    case MultiplyFunc(op1, op2, _) => HasNode(op1, n) || HasNode(op2, n)
  }

  /** The partial derivative of `f`'s value with respect to the leaf named `n`.
      The left operand is asked first; a sum scales the chosen operand's
      derivative by 1, a product by the value of the other operand, which is
      computed afresh. A query for a name that is not present aborts. */
  function DerivativeOver(f: Node, n: string): (r: Derivative)
    ensures r.Ok? <==> HasNode(f, n)
    ensures r.NotFound? ==> r.name == n
  {
    match f
    case ConstVal(_, _) =>
      if HasNode(f, n) then Ok(1) else NotFound(n)
    case AddFunc(op1, op2, _) =>
      if HasNode(op1, n) then Scale(1, DerivativeOver(op1, n))
      else if HasNode(op2, n) then Scale(1, DerivativeOver(op2, n))
      else NotFound(n)
    case MultiplyFunc(op1, op2, _) =>
      if HasNode(op1, n) then Scale(ComputeValue(op2), DerivativeOver(op1, n))
      else if HasNode(op2, n) then Scale(ComputeValue(op1), DerivativeOver(op2, n))
      else NotFound(n)
  }

  /** Multiplies a derivative by a coefficient; an abort passes through. */
  function Scale(c: int, d: Derivative): (r: Derivative)
  {
    match d
    case Ok(v) => Ok(c * v)
    case NotFound(_) => d
  }
}
