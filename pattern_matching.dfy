/**
 * Structural matching of expression trees (simple/pattern_matching.cpp), used by assignment
 * patterns: an exact match compares whole trees, a partial match looks for the pattern
 * among the subtrees reached through binary nodes.
 */
module PatternMatching {
  import opened SimpleAst

  /** exactMatch(subtree, tree) */
  function ExactMatch(subtree: Expr, tree: Expr): bool
  {
    match subtree
    case VarRef(name) => tree.VarRef? && tree.name == name
    case Constant(value) => tree.Constant? && tree.value == value
    case BinaryOp(op, lhs, rhs) =>
      tree.BinaryOp? && tree.op == op && ExactMatch(lhs, tree.lhs) && ExactMatch(rhs, tree.rhs)
    case UnaryOp(_, _) => false
  }

  /** partialMatch(subtree, tree) */
  function PartialMatch(subtree: Expr, tree: Expr): bool
  {
    ExactMatch(subtree, tree)
    || (tree.BinaryOp? && (PartialMatch(subtree, tree.lhs) || PartialMatch(subtree, tree.rhs)))
  }

  /** Trees with no unary node, the only trees an exact match can accept. */
  predicate NoUnary(e: Expr)
  {
    match e
    case VarRef(_) => true
    case Constant(_) => true
    case BinaryOp(_, lhs, rhs) => NoUnary(lhs) && NoUnary(rhs)
    case UnaryOp(_, _) => false
  }

  /** The subtrees a partial match searches: the tree and, below binary nodes only, the
   *  subtrees of both operands. */
  function SearchedSubtrees(tree: Expr): set<Expr>
  {
    {tree} + if tree.BinaryOp? then SearchedSubtrees(tree.lhs) + SearchedSubtrees(tree.rhs) else {}
  }

  /** An exact match is structural equality of trees without unary nodes: in particular a
   *  name matches only the same name, a constant only the same constant, a binary node only
   *  a binary node with the same operator and matching operands, and a unary pattern
   *  nothing. */
  lemma {:induction false} ExactMatchIsEquality(subtree: Expr, tree: Expr)
    ensures ExactMatch(subtree, tree) <==> subtree == tree && NoUnary(subtree)
  {
    match subtree
    case VarRef(_) =>
    case Constant(_) =>
    case UnaryOp(_, _) =>
    case BinaryOp(op, lhs, rhs) =>
      if tree.BinaryOp? {
        ExactMatchIsEquality(lhs, tree.lhs);
        ExactMatchIsEquality(rhs, tree.rhs);
      }
  }

  /** A partial match finds the pattern, unary-free, among the searched subtrees. */
  lemma {:induction false} PartialMatchIsSearch(subtree: Expr, tree: Expr)
    ensures PartialMatch(subtree, tree) <==> NoUnary(subtree) && subtree in SearchedSubtrees(tree)
  {
    ExactMatchIsEquality(subtree, tree);
    if tree.BinaryOp? {
      PartialMatchIsSearch(subtree, tree.lhs);
      PartialMatchIsSearch(subtree, tree.rhs);
    }
  }

  /** Every exact match is a partial match. */
  lemma ExactImpliesPartial(subtree: Expr, tree: Expr)
    ensures ExactMatch(subtree, tree) ==> PartialMatch(subtree, tree)
  {
  }

  /** A partial match does not look inside a unary node: against one it holds only if it
   *  is an exact match, which it never is. */
  lemma PartialStopsAtUnary(subtree: Expr, op: string, inner: Expr)
    ensures !PartialMatch(subtree, UnaryOp(op, inner))
  {
    ExactMatchIsEquality(subtree, UnaryOp(op, inner));
  }

  /** Every unary-free tree matches itself exactly. */
  lemma ExactMatchReflexive(e: Expr)
    requires NoUnary(e)
    ensures ExactMatch(e, e)
  {
    ExactMatchIsEquality(e, e);
  }

  /** In a left-associated "x + y + z", i.e. ((x + y) + z), the names x, y, z being
   *  distinct, "x + y" is a subtree and "y + z" is not. */
  lemma LeftAssociationHidesSuffix(x: string, y: string, z: string)
    requires x != y
    ensures var tree := BinaryOp("+", BinaryOp("+", VarRef(x), VarRef(y)), VarRef(z));
            PartialMatch(BinaryOp("+", VarRef(x), VarRef(y)), tree)
            && !PartialMatch(BinaryOp("+", VarRef(y), VarRef(z)), tree)
  {
    var tree := BinaryOp("+", BinaryOp("+", VarRef(x), VarRef(y)), VarRef(z));
    PartialMatchIsSearch(BinaryOp("+", VarRef(y), VarRef(z)), tree);
    PartialMatchIsSearch(BinaryOp("+", VarRef(x), VarRef(y)), tree);
    assert SearchedSubtrees(VarRef(x)) == {VarRef(x)};
    assert SearchedSubtrees(VarRef(y)) == {VarRef(y)};
    assert SearchedSubtrees(VarRef(z)) == {VarRef(z)};
    assert SearchedSubtrees(BinaryOp("+", VarRef(x), VarRef(y)))
        == {BinaryOp("+", VarRef(x), VarRef(y)), VarRef(x), VarRef(y)};
    assert SearchedSubtrees(tree)
        == {tree, BinaryOp("+", VarRef(x), VarRef(y)), VarRef(x), VarRef(y), VarRef(z)};
  }
}
