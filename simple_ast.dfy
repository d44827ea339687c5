/**
 * The SIMPLE abstract syntax tree. Statement numbers and parent links, which the design
 * extractor writes into the tree in place, are kept apart from it (see DesignExtractor).
 */
module SimpleAst {
  /** Expressions. Operators are kept as their source text, e.g. "+", "<=", "&&" or "!". A
   *  constant keeps the digits of its literal. */
  datatype Expr =
    | VarRef(name: string)
    | Constant(value: string)
    | BinaryOp(op: string, lhs: Expr, rhs: Expr)
    | UnaryOp(op: string, expr: Expr)

  datatype Stmt =
    | ReadStmt(varName: string)
    | PrintStmt(varName: string)
    | ProcCall(procName: string)
    | AssignStmt(lhs: string, rhs: Expr)
    | IfStmt(condition: Expr, trueCase: seq<Stmt>, falseCase: seq<Stmt>)
    | WhileLoop(condition: Expr, body: seq<Stmt>)

  datatype Procedure = Procedure(name: string, body: seq<Stmt>)

  datatype Program = Program(procedures: seq<Procedure>)

  /** BinaryOp::isRelational */
  predicate IsRelational(op: string)
  {
    op == "<" || op == ">" || op == ">=" || op == "<=" || op == "==" || op == "!="
  }

  /** BinaryOp::isConditional */
  predicate IsConditional(op: string)
  {
    op == "&&" || op == "||"
  }

  predicate IsArithmetic(op: string)
  {
    op == "+" || op == "-" || op == "*" || op == "/" || op == "%"
  }
}
