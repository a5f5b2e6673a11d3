/// What the engine's three queries mean: which names a tree contains, the
/// sum and product rules it applies, and in what sense its answer is the
/// partial derivative of the tree's value.

module Calculus {
  import opened Backprop

  /** The names of the leaves of `f`; composite names are not among them
      unless some leaf carries the same name. */
  function LeafNames(f: Node): (names: set<string>)
  {
    match f
    case ConstVal(_, name) => {name}
    case AddFunc(op1, op2, _) => LeafNames(op1) + LeafNames(op2)
    case MultiplyFunc(op1, op2, _) => LeafNames(op1) + LeafNames(op2)
  }

  /** How many leaves of `f` are named `n`. */
  function LeafCount(f: Node, n: string): (count: nat)
  {
    match f
    case ConstVal(_, name) => if name == n then 1 else 0
    case AddFunc(op1, op2, _) => LeafCount(op1, n) + LeafCount(op2, n)
    case MultiplyFunc(op1, op2, _) => LeafCount(op1, n) + LeafCount(op2, n)
  }

  /** The textbook derivative with respect to every leaf named `n` at once:
      the sum rule adds both operands' contributions, the product rule
      weighs each by the value of the other operand. */
  function ChainRule(f: Node, n: string): (d: int)
  {
    match f
    case ConstVal(_, name) => if name == n then 1 else 0
    case AddFunc(op1, op2, _) => ChainRule(op1, n) + ChainRule(op2, n)
    case MultiplyFunc(op1, op2, _) =>
      ComputeValue(op2) * ChainRule(op1, n) + ComputeValue(op1) * ChainRule(op2, n)
  }

  /** The value of `f` when every leaf named `n` holds `x` in place of its
      stored value: the tree's value as a function of that leaf. */
  function ValueAt(f: Node, n: string, x: int): (v: int)
  {
    match f
    case ConstVal(v, name) => if name == n then x else v
    case AddFunc(op1, op2, _) => ValueAt(op1, n, x) + ValueAt(op2, n, x)
    case MultiplyFunc(op1, op2, _) => ValueAt(op1, n, x) * ValueAt(op2, n, x)
  }

  /** The stored value of the first leaf named `n`, left operands first. */
  function LeafValue(f: Node, n: string): (v: int)
    requires HasNode(f, n)
  {
    match f
    case ConstVal(v, _) => v
    case AddFunc(op1, op2, _) => if HasNode(op1, n) then LeafValue(op1, n) else LeafValue(op2, n)
    case MultiplyFunc(op1, op2, _) => if HasNode(op1, n) then LeafValue(op1, n) else LeafValue(op2, n)
  }

  /** `f` and `g` are the same tree except, possibly, for composite names. */
  predicate SameShape(f: Node, g: Node)
  {
    match f
    case ConstVal(_, _) => f == g
    case AddFunc(a1, a2, _) => g.AddFunc? && SameShape(a1, g.op1) && SameShape(a2, g.op2)
    case MultiplyFunc(a1, a2, _) => g.MultiplyFunc? && SameShape(a1, g.op1) && SameShape(a2, g.op2)
  }

  /** `HasNode` finds exactly the names of leaves. */
  lemma {:induction false} HasNodeIffLeafName(f: Node, n: string)
    ensures HasNode(f, n) <==> n in LeafNames(f)
    ensures HasNode(f, n) <==> LeafCount(f, n) > 0
  {
    match f
    case ConstVal(_, _) =>
    case AddFunc(op1, op2, _) =>
      HasNodeIffLeafName(op1, n);
      HasNodeIffLeafName(op2, n);
    case MultiplyFunc(op1, op2, _) =>
      HasNodeIffLeafName(op1, n);
      HasNodeIffLeafName(op2, n);
  }

  /** A leaf's value is the stored one, it contains only its own name, and
      its derivative over that name is 1. */
  lemma {:induction false} LeafQueries(v: int, name: string, n: string)
    ensures ComputeValue(ConstVal(v, name)) == v
    ensures HasNode(ConstVal(v, name), n) <==> n == name
    ensures DerivativeOver(ConstVal(v, name), n) == if n == name then Ok(1) else NotFound(n)
  {
  }

  /** A sum's value adds its operands' values; its derivative is that of the
      left operand if it contains `n`, else that of the right operand,
      abort included. */
  lemma {:induction false} SumRule(op1: Node, op2: Node, s: string, n: string)
    ensures ComputeValue(AddFunc(op1, op2, s)) == ComputeValue(op1) + ComputeValue(op2)
    ensures HasNode(op1, n) ==> DerivativeOver(AddFunc(op1, op2, s), n) == DerivativeOver(op1, n)
    ensures !HasNode(op1, n) ==> DerivativeOver(AddFunc(op1, op2, s), n) == DerivativeOver(op2, n)
  {
  }

  /** A product's value multiplies its operands' values; its derivative is
      the derivative of the operand containing `n`, left first, times the
      value of the other operand. */
  lemma {:induction false} ProductRule(op1: Node, op2: Node, s: string, n: string)
    ensures ComputeValue(MultiplyFunc(op1, op2, s)) == ComputeValue(op1) * ComputeValue(op2)
    ensures HasNode(op1, n) ==>
      DerivativeOver(MultiplyFunc(op1, op2, s), n) == Ok(ComputeValue(op2) * DerivativeOver(op1, n).value)
    ensures !HasNode(op1, n) && HasNode(op2, n) ==>
      DerivativeOver(MultiplyFunc(op1, op2, s), n) == Ok(ComputeValue(op1) * DerivativeOver(op2, n).value)
    ensures !HasNode(op1, n) && !HasNode(op2, n) ==>
      DerivativeOver(MultiplyFunc(op1, op2, s), n) == NotFound(n)
  {
  }

  /** Once the left operand contains `n`, the right operand's structure
      plays no part: a sum ignores it entirely, a product only uses its
      value. */
  lemma {:induction false} LeftBias(l: Node, r1: Node, r2: Node, s1: string, s2: string, n: string)
    requires HasNode(l, n)
    ensures DerivativeOver(AddFunc(l, r1, s1), n) == DerivativeOver(AddFunc(l, r2, s2), n)
    ensures ComputeValue(r1) == ComputeValue(r2) ==>
      DerivativeOver(MultiplyFunc(l, r1, s1), n) == DerivativeOver(MultiplyFunc(l, r2, s2), n)
  {
  }

  /** No query reads a composite's name: renaming composites changes
      neither value, nor membership, nor derivative. */
  lemma {:induction false} CompositeNamesIgnored(f: Node, g: Node, n: string)
    requires SameShape(f, g)
    ensures ComputeValue(f) == ComputeValue(g)
    ensures HasNode(f, n) == HasNode(g, n)
    ensures DerivativeOver(f, n) == DerivativeOver(g, n)
  {
    match f
    case ConstVal(_, _) =>
    case AddFunc(a1, a2, _) =>
      CompositeNamesIgnored(a1, g.op1, n);
      CompositeNamesIgnored(a2, g.op2, n);
    case MultiplyFunc(a1, a2, _) =>
      CompositeNamesIgnored(a1, g.op1, n);
      CompositeNamesIgnored(a2, g.op2, n);
  }

  /** A subtree without `n` contributes nothing to the textbook derivative. */
  lemma {:induction false} ChainRuleOfAbsent(f: Node, n: string)
    requires !HasNode(f, n)
    ensures ChainRule(f, n) == 0
  {
    match f
    case ConstVal(_, _) =>
    case AddFunc(op1, op2, _) =>
      ChainRuleOfAbsent(op1, n);
      ChainRuleOfAbsent(op2, n);
    case MultiplyFunc(op1, op2, _) =>
      ChainRuleOfAbsent(op1, n);
      ChainRuleOfAbsent(op2, n);
  }

  /** When exactly one leaf is named `n`, the engine's single-branch answer
      is the full sum-and-product-rule derivative. */
  lemma {:induction false} DerivativeIsChainRule(f: Node, n: string)
    requires LeafCount(f, n) == 1
    ensures DerivativeOver(f, n) == Ok(ChainRule(f, n))
  {
    match f
    case ConstVal(_, _) =>
    case AddFunc(op1, op2, _) =>
      HasNodeIffLeafName(op1, n);
      HasNodeIffLeafName(op2, n);
      if LeafCount(op1, n) == 1 {
        DerivativeIsChainRule(op1, n);
        ChainRuleOfAbsent(op2, n);
      } else {
        DerivativeIsChainRule(op2, n);
        ChainRuleOfAbsent(op1, n);
      }
    case MultiplyFunc(op1, op2, _) =>
      HasNodeIffLeafName(op1, n);
      HasNodeIffLeafName(op2, n);
      if LeafCount(op1, n) == 1 {
        DerivativeIsChainRule(op1, n);
        ChainRuleOfAbsent(op2, n);
      } else {
        DerivativeIsChainRule(op2, n);
        ChainRuleOfAbsent(op1, n);
      }
  }

  /** Changing leaves that are not there changes nothing. */
  lemma {:induction false} ValueAtOfAbsent(f: Node, n: string, x: int)
    requires !HasNode(f, n)
    ensures ValueAt(f, n, x) == ComputeValue(f)
  {
    match f
    case ConstVal(_, _) =>
    case AddFunc(op1, op2, _) =>
      ValueAtOfAbsent(op1, n, x);
      ValueAtOfAbsent(op2, n, x);
    case MultiplyFunc(op1, op2, _) =>
      ValueAtOfAbsent(op1, n, x);
      ValueAtOfAbsent(op2, n, x);
  }

  /** At the stored value of the one leaf named `n`, `ValueAt` is the
      tree's own value. */
  lemma {:induction false} ValueAtStoredValue(f: Node, n: string)
    requires LeafCount(f, n) == 1
    ensures HasNode(f, n) && ValueAt(f, n, LeafValue(f, n)) == ComputeValue(f)
  {
    HasNodeIffLeafName(f, n);
    match f
    case ConstVal(_, _) =>
    case AddFunc(op1, op2, _) =>
      HasNodeIffLeafName(op1, n);
      HasNodeIffLeafName(op2, n);
      if LeafCount(op1, n) == 1 {
        ValueAtStoredValue(op1, n);
        ValueAtOfAbsent(op2, n, LeafValue(f, n));
      } else {
        ValueAtStoredValue(op2, n);
        ValueAtOfAbsent(op1, n, LeafValue(f, n));
      }
    case MultiplyFunc(op1, op2, _) =>
      HasNodeIffLeafName(op1, n);
      HasNodeIffLeafName(op2, n);
      if LeafCount(op1, n) == 1 {
        ValueAtStoredValue(op1, n);
        ValueAtOfAbsent(op2, n, LeafValue(f, n));
      } else {
        ValueAtStoredValue(op2, n);
        ValueAtOfAbsent(op1, n, LeafValue(f, n));
      }
  }

  /** The derivative is a true partial derivative: when exactly one leaf is
      named `n`, the tree's value is an affine function of that leaf's value
      whose slope is the engine's answer. */
  lemma {:induction false} DerivativeIsSlope(f: Node, n: string, x: int)
    requires LeafCount(f, n) == 1
    ensures DerivativeOver(f, n).Ok?
    ensures ValueAt(f, n, x) == ValueAt(f, n, 0) + x * DerivativeOver(f, n).value
  {
    HasNodeIffLeafName(f, n);
    match f
    case ConstVal(_, _) =>
    case AddFunc(op1, op2, _) =>
      HasNodeIffLeafName(op1, n);
      HasNodeIffLeafName(op2, n);
      if LeafCount(op1, n) == 1 {
        DerivativeIsSlope(op1, n, x);
        ValueAtOfAbsent(op2, n, x);
        ValueAtOfAbsent(op2, n, 0);
      } else {
        DerivativeIsSlope(op2, n, x);
        ValueAtOfAbsent(op1, n, x);
        ValueAtOfAbsent(op1, n, 0);
      }
    case MultiplyFunc(op1, op2, _) =>
      HasNodeIffLeafName(op1, n);
      HasNodeIffLeafName(op2, n);
      if LeafCount(op1, n) == 1 {
        DerivativeIsSlope(op1, n, x);
        ValueAtOfAbsent(op2, n, x);
        ValueAtOfAbsent(op2, n, 0);
        ScaledAffine(ValueAt(op1, n, x), ValueAt(op1, n, 0), DerivativeOver(op1, n).value, ComputeValue(op2), x);
      } else {
        DerivativeIsSlope(op2, n, x);
        ValueAtOfAbsent(op1, n, x);
        ValueAtOfAbsent(op1, n, 0);
        ScaledAffine(ValueAt(op2, n, x), ValueAt(op2, n, 0), DerivativeOver(op2, n).value, ComputeValue(op1), x);
      }
  }

  /** Scaling an affine function of `x` by `v` scales its slope by `v`. */
  lemma ScaledAffine(w: int, c: int, d: int, v: int, x: int)
    requires w == c + x * d
    ensures w * v == c * v + x * (v * d)
    ensures v * w == v * c + x * (v * d)
  {
  }

  /** Left bias in action: when a name occurs in both operands, only the
      left occurrence is differentiated, so `X + X` and `X * X` get half of
      their textbook derivatives. */
  lemma {:induction false} SharedNameLeftBias()
    ensures var x := ConstVal(3, "X");
      var sum, product := AddFunc(x, x, "X+X"), MultiplyFunc(x, x, "X*X");
      && DerivativeOver(sum, "X") == Ok(1) && ChainRule(sum, "X") == 2
      && DerivativeOver(product, "X") == Ok(3) && ChainRule(product, "X") == 6
  {
  }
}
