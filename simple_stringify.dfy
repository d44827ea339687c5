/**
 * The compact printer of SIMPLE trees (simple/stringify.cpp, the `compact` forms).
 * Arithmetic is printed fully parenthesised, so the printed text of a well-formed program
 * parses back to the same tree (see SimpleRoundTrip).
 */
module SimpleStringify {
  import opened SimpleAst

  /** is_conditional_op: a binary node with `&&` or `||`. */
  predicate IsConditionalOp(e: Expr)
  {
    e.BinaryOp? && IsConditional(e.op)
  }

  /** parenthesise_conditional: conditional nodes and non-binary nodes are wrapped in
   *  parentheses; other binary nodes print their own. */
  function ParenthesiseConditional(e: Expr): string
    decreases e, 1
  {
    if IsConditionalOp(e) || !e.BinaryOp? then "(" + ExprToString(e) + ")" else ExprToString(e)
  }

  /** Expr::toString */
  function ExprToString(e: Expr): string
    decreases e, 0
  {
    match e
    case VarRef(name) => name
    case Constant(value) => value
    case BinaryOp(op, lhs, rhs) =>
      if IsConditional(op) then ParenthesiseConditional(lhs) + " " + op + " " + ParenthesiseConditional(rhs)
      else "(" + ExprToString(lhs) + " " + op + " " + ExprToString(rhs) + ")"
    case UnaryOp(op, inner) =>
      if IsConditionalOp(inner) || !inner.BinaryOp? then op + "(" + ExprToString(inner) + ")"
      else op + ExprToString(inner)
  }

  /** Stmt::toString(_, compact = true) */
  function StmtToString(s: Stmt): string
    decreases s
  {
    match s
    case ReadStmt(v) => "read " + v + ";"
    case PrintStmt(v) => "print " + v + ";"
    case ProcCall(p) => "call " + p + ";"
    case AssignStmt(lhs, rhs) => lhs + " = " + ExprToString(rhs) + ";"
    case IfStmt(cond, t, f) =>
      "if" + ParenthesiseConditional(cond) + "then" + StmtListToString(t) + "else" + StmtListToString(f)
    case WhileLoop(cond, body) => "while" + ParenthesiseConditional(cond) + StmtListToString(body)
  }

  /** StmtList::toString(_, compact = true): the statements between braces. */
  function StmtListToString(ss: seq<Stmt>): string
    decreases ss, 1
  {
    "{" + StmtsToString(ss) + "}"
  }

  /** The concatenation built by the loop of the compact StmtList::toString. */
  function StmtsToString(ss: seq<Stmt>): string
    decreases ss, 0
  {
    if |ss| == 0 then "" else StmtToString(ss[0]) + StmtsToString(ss[1..])
  }

  /** Procedure::toString(compact = true) */
  function ProcedureToString(p: Procedure): string
  {
    "procedure " + p.name + StmtListToString(p.body)
  }

  /** Program::toString(compact = true): the procedures one after another. */
  function ProgramToString(p: Program): string
  {
    ProceduresToString(p.procedures)
  }

  function ProceduresToString(ps: seq<Procedure>): string
  {
    if |ps| == 0 then "" else ProcedureToString(ps[0]) + ProceduresToString(ps[1..])
  }
}
