/// The tree that the program's entry point builds and queries:
/// ((A + B) * C) * D with A = 10, B = 5, C = 20 and D = 25.

module WorkedExample {
  import opened Backprop
  import Calculus

  /** The tree `(A+B)CD`, each composite named as in the entry point. */
  function Tree(): Node
  {
    var a, b := ConstVal(10, "A"), ConstVal(5, "B");
    var c, d := ConstVal(20, "C"), ConstVal(25, "D");
    var f1 := AddFunc(a, b, "A+B");
    var f2 := MultiplyFunc(f1, c, "(A+B)C");
    MultiplyFunc(f2, d, "(A+B)CD")
  }

  /** The value is (10 + 5) * 20 * 25 = 7500. */
  lemma {:induction false} TreeValue()
    ensures ComputeValue(Tree()) == 7500
    ensures Calculus.LeafNames(Tree()) == {"A", "B", "C", "D"}
  {
  }

  /** The derivative over A, and over B, is C * D. */
  lemma {:induction false} TreeDerivativesInSum()
    ensures DerivativeOver(Tree(), "A") == Ok(500)
    ensures DerivativeOver(Tree(), "B") == Ok(500)
  {
  }

  /** The derivative over C is (A + B) * D, over D it is (A + B) * C. */
  lemma {:induction false} TreeDerivativesInProducts()
    ensures DerivativeOver(Tree(), "C") == Ok(375)
    ensures DerivativeOver(Tree(), "D") == Ok(300)
  {
  }

  /** Composite names are not searchable, and neither is an absent name:
      those queries abort. */
  lemma {:induction false} TreeUnknownNames()
    ensures DerivativeOver(Tree(), "A+B") == NotFound("A+B")
    ensures DerivativeOver(Tree(), "(A+B)CD") == NotFound("(A+B)CD")
    ensures DerivativeOver(Tree(), "Z") == NotFound("Z")
  {
  }
}
