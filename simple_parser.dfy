/**
 * The SIMPLE parser (simple/parser.cpp): recursive descent over the character stream, which
 * every function takes and returns what is left of, the tokens coming from the lexer on
 * demand. An exception is an Err carrying its message.
 */
module SimpleParser {
  import opened Wrappers
  import opened SimpleLexer
  import opened SimpleAst

  /** A parsed value and the stream after it. */
  type Parse<T> = Result<(T, string)>

  /** get_precedence */
  function Precedence(tt: TokenType): int
  {
    match tt
    case Plus | Minus => 1
    case Asterisk | Slash | Percent => 2
    case _ => -1
  }

  // ---------------------------------------------------------------- expressions

  /** parsePrimary: a parenthesised expression, a number or a name. */
  function ParsePrimary(s: string): (r: Parse<Expr>)
    ensures r.Ok? ==> |r.value.1| < |s|
    decreases |s|, 0
  {
    var tok :- PeekToken(s);
    if tok.kind == LParen then
      var open := NextToken(s).value;
      var inner :- ParseExpr(open.1);
      var close :- NextToken(inner.1);
      if close.0.kind != RParen then Err("expected ')' to match opening '('")
      else Ok((inner.0, close.1))
    else if tok.kind == Number then
      var num := NextToken(s).value;
      Ok((Constant(num.0.text), num.1))
    else if tok.kind == Identifier then
      var name := NextToken(s).value;
      Ok((VarRef(name.0.text), name.1))
    else if tok.kind == EndOfFile then Err("unexpected end of input")
    else Err("invalid start of expression with '" + tok.text + "'")
  }

  /** parseRhs: precedence climbing. Each round of the source's loop takes an operator of at
   *  least `priority`, its right operand (extended first by tighter operators that follow),
   *  and makes the tree so far its left operand; the loop is the tail call. */
  function ParseRhs(lhs: Expr, priority: int, s: string): (r: Parse<Expr>)
    requires priority >= -1
    ensures r.Ok? ==> |r.value.1| <= |s|
    decreases |s|, 0
  {
    if priority == -1 then Ok((lhs, s))
    else
      var tok :- PeekToken(s);
      var prec := Precedence(tok.kind);
      if prec < priority then Ok((lhs, s))
      else
        var op := NextToken(s).value;
        var rhs :- ParsePrimary(op.1);
        var next :- PeekToken(rhs.1);
        var rhs' :- if Precedence(next.kind) > prec then ParseRhs(rhs.0, prec + 1, rhs.1) else Ok(rhs);
        ParseRhs(BinaryOp(op.0.text, lhs, rhs'.0), priority, rhs'.1)
  }

  /** parseExpr */
  function ParseExpr(s: string): (r: Parse<Expr>)
    ensures r.Ok? ==> |r.value.1| < |s|
    decreases |s|, 1
  {
    var primary :- ParsePrimary(s);
    ParseRhs(primary.0, 0, primary.1)
  }

  /** The `is_relational_expr` test: a binary node with a relational operator. */
  predicate IsRelationalExpr(e: Expr)
  {
    e.BinaryOp? && IsRelational(e.op)
  }

  /** parseBinaryCondExpr: `&&` or `||`, then a parenthesised conditional expression. */
  function ParseBinaryCond(lhs: Expr, s: string): (r: Parse<Expr>)
    ensures r.Ok? ==> |r.value.1| < |s|
    decreases |s|, 2
  {
    var tok :- NextToken(s);
    if tok.0.kind != LogicalAnd && tok.0.kind != LogicalOr then
      Err("expected either '&&' or '||', found '" + tok.0.text + "' instead")
    else
      var op := if tok.0.kind == LogicalAnd then "&&" else "||";
      var open :- NextToken(tok.1);
      if open.0.kind != LParen then Err("expected '(' after '" + op + "', found '" + open.0.text + "' instead")
      else
        var rhs :- ParseCond(open.1, 1);
        var close :- NextToken(rhs.1);
        if close.0.kind != RParen then Err("expected ')' after expression, found '" + close.0.text + "' instead")
        else Ok((BinaryOp(op, lhs, rhs.0), close.1))
  }

  /** The operator text of a relational token. */
  function RelationalOp(tt: TokenType): Option<string>
  {
    match tt
    case LAngle => Some("<")
    case RAngle => Some(">")
    case GreaterEqual => Some(">=")
    case LessEqual => Some("<=")
    case NotEqual => Some("!=")
    case EqualsTo => Some("==")
    case _ => None
  }

  /** parseRelationalExpr: a relational operator, then an expression. */
  function ParseRelational(lhs: Expr, s: string): (r: Parse<Expr>)
    ensures r.Ok? ==> |r.value.1| < |s|
    decreases |s|, 2
  {
    var tok :- NextToken(s);
    var op := RelationalOp(tok.0.kind);
    if op.None? then Err("invalid relational operator '" + tok.0.text + "'")
    else
      var rhs :- ParseExpr(tok.1);
      Ok((BinaryOp(op.value, lhs, rhs.0), rhs.1))
  }

  /** parseCondExpr: `!(c)`; or `(` c `)` possibly continued as an expression and then
   *  closed by the caller, compared, or joined by `&&`/`||`; or an expression, which outside
   *  parentheses must be compared. `nesting` counts the enclosing parentheses. */
  function ParseCond(s: string, nesting: nat): (r: Parse<Expr>)
    ensures r.Ok? ==> |r.value.1| < |s|
    decreases |s|, 4
  {
    var tok :- PeekToken(s);
    if tok.kind == Exclamation then ParseNot(s, nesting)
    else if tok.kind == LParen then ParseParenCond(s, nesting)
    else
      var lhs :- ParseExpr(s);
      var next :- PeekToken(lhs.1);
      if next.kind == RParen && nesting > 0 then Ok(lhs)
      else ParseRelational(lhs.0, lhs.1)
  }

  /** The '!' branch of parseCondExpr. */
  function ParseNot(s: string, nesting: nat): (r: Parse<Expr>)
    requires PeekToken(s).Ok? && PeekToken(s).value.kind == Exclamation
    ensures r.Ok? ==> |r.value.1| < |s|
    decreases |s|, 3
  {
    var bang := NextToken(s).value;
    var open :- NextToken(bang.1);
    if open.0.kind != LParen then Err("expected '(' after '!', found '" + open.0.text + "' instead")
    else
      var inner :- ParseCond(open.1, nesting + 1);
      var close :- NextToken(inner.1);
      if close.0.kind != RParen then Err("expected ')' to match a '('")
      else Ok((UnaryOp("!", inner.0), close.1))
  }

  /** The '(' branch of parseCondExpr. */
  function ParseParenCond(s: string, nesting: nat): (r: Parse<Expr>)
    requires PeekToken(s).Ok? && PeekToken(s).value.kind == LParen
    ensures r.Ok? ==> |r.value.1| < |s|
    decreases |s|, 3
  {
    var open := NextToken(s).value;
    var lhs :- ParseCond(open.1, nesting + 1);
    var close :- NextToken(lhs.1);
    if close.0.kind != RParen then Err("expected ')', found '" + close.0.text + "'")
    else
      var after :- PeekToken(close.1);
      var lhs' :- if after.kind != RParen && Precedence(after.kind) != -1
                  then ParseRhs(lhs.0, 0, close.1) else Ok((lhs.0, close.1));
      ParseCondTail(lhs'.0, lhs'.1, nesting)
  }

  /** The end of the '(' branch: return to the enclosing parenthesis, compare, or join. */
  function ParseCondTail(lhs: Expr, s: string, nesting: nat): (r: Parse<Expr>)
    ensures r.Ok? ==> |r.value.1| <= |s|
    decreases |s|, 3
  {
    var next :- PeekToken(s);
    if next.kind == RParen && nesting > 0 then Ok((lhs, s))
    else if IsRelational(next.text) then
      if IsRelationalExpr(lhs) then Err("relational operators cannot be chained")
      else ParseRelational(lhs, s)
    else if IsConditional(next.text) then ParseBinaryCond(lhs, s)
    else Err("expected a conditional/relational operator after ')', found '" + next.text + "'")
  }

  // ---------------------------------------------------------------- statements

  /** parseStatementList: '{' stmt+ '}'. */
  function ParseStmtList(s: string): (r: Parse<seq<Stmt>>)
    ensures r.Ok? ==> |r.value.1| < |s|
    decreases |s|, 0
  {
    var open :- NextToken(s);
    if open.0.kind != LBrace then Err("expected '{'")
    else
      var stmts :- ParseStmts(open.1);
      var close :- NextToken(stmts.1);
      if close.0.kind != RBrace then Err("expected '}'")
      else if |stmts.0| == 0 then Err("expected at least one statement between '{' and '}'")
      else Ok((stmts.0, close.1))
  }

  /** The loop of parseStatementList: statements up to the next '}', which it does not
   *  consume; end of input before it is an error. */
  function ParseStmts(s: string): (r: Parse<seq<Stmt>>)
    ensures r.Ok? ==> |r.value.1| <= |s|
    decreases |s|, 1
  {
    var tok :- PeekToken(s);
    if tok.kind == RBrace then Ok(([], s))
    else if tok.kind == EndOfFile then Err("unexpected end of file (expected '}')")
    else
      var stmt :- ParseStmt(s);
      var more :- ParseStmts(stmt.1);
      Ok(([stmt.0] + more.0, more.1))
  }

  /** check_semicolon */
  function ExpectSemicolon<T>(value: T, s: string): (r: Parse<T>)
    ensures r.Ok? ==> |r.value.1| < |s|
  {
    var tok :- NextToken(s);
    if tok.0.kind != Semicolon then Err("expected semicolon after statement, found '" + tok.0.text + "' instead")
    else Ok((value, tok.1))
  }

  /** parseIfStmt, after 'if': '(' cond ')' 'then' list 'else' list. */
  function ParseIf(s: string): (r: Parse<Stmt>)
    ensures r.Ok? ==> |r.value.1| < |s|
    decreases |s|, 0
  {
    var open :- NextToken(s);
    if open.0.kind != LParen then Err("expected '(' after 'if'")
    else
      var cond :- ParseCond(open.1, 0);
      var close :- NextToken(cond.1);
      if close.0.kind != RParen then Err("expected ')' after conditional, found '" + close.0.text + "' instead")
      else
        var then_ :- NextToken(close.1);
        if then_.0.kind != Identifier || then_.0.text != "then" then Err("expected 'then' after condition for 'if'")
        else
          var trueCase :- ParseStmtList(then_.1);
          var else_ :- NextToken(trueCase.1);
          if else_.0.kind != Identifier || else_.0.text != "else" then Err("'else' clause is mandatory")
          else
            var falseCase :- ParseStmtList(else_.1);
            Ok((IfStmt(cond.0, trueCase.0, falseCase.0), falseCase.1))
  }

  /** parseWhileLoop, after 'while': '(' cond ')' list. */
  function ParseWhile(s: string): (r: Parse<Stmt>)
    ensures r.Ok? ==> |r.value.1| < |s|
    decreases |s|, 0
  {
    var open :- NextToken(s);
    if open.0.kind != LParen then Err("expected '(' after 'while'")
    else
      var cond :- ParseCond(open.1, 0);
      var close :- NextToken(cond.1);
      if close.0.kind != RParen then Err("expected ')' after conditional, found '" + close.0.text + "' instead")
      else
        var body :- ParseStmtList(close.1);
        Ok((WhileLoop(cond.0, body.0), body.1))
  }

  /** parseStmt. A keyword starts its statement only when the next token is not '=';
   *  otherwise, like any other name, it is the target of an assignment. */
  function ParseStmt(s: string): (r: Parse<Stmt>)
    ensures r.Ok? ==> |r.value.1| < |s|
    decreases |s|, 0
  {
    var tok :- NextToken(s);
    if tok.0.kind != Identifier then Err("unexpected token '" + tok.0.text + "' at beginning of statement")
    else
      var next :- PeekToken(tok.1);
      var keyword := if next.kind != Equal then tok.0.text else "";
      if keyword == "read" || keyword == "print" || keyword == "call" then
        var name := NextToken(tok.1).value;
        if name.0.kind != Identifier then Err("expected identifier after '" + keyword + "'")
        else
          var stmt := if keyword == "read" then ReadStmt(name.0.text)
                      else if keyword == "print" then PrintStmt(name.0.text)
                      else ProcCall(name.0.text);
          ExpectSemicolon(stmt, name.1)
      else if keyword == "if" then ParseIf(tok.1)
      else if keyword == "while" then ParseWhile(tok.1)
      else
        var eq := NextToken(tok.1).value;
        if eq.0.kind != Equal then Err("expected '=' after identifier")
        else
          var rhs :- ParseExpr(eq.1);
          ExpectSemicolon(AssignStmt(tok.0.text, rhs.0), rhs.1)
  }

  // ---------------------------------------------------------------- procedures, programs

  /** parseProcedure: 'procedure' name list. */
  function ParseProcedure(s: string): (r: Parse<Procedure>)
    ensures r.Ok? ==> |r.value.1| < |s|
  {
    var kw :- NextToken(s);
    if kw.0.kind != Identifier || kw.0.text != "procedure" then
      Err("expected 'procedure' to define a procedure (found '" + kw.0.text + "')")
    else
      var name :- NextToken(kw.1);
      if name.0.kind != Identifier then Err("expected identifier after 'procedure'")
      else
        var body :- ParseStmtList(name.1);
        Ok((Procedure(name.0.text, body.0), body.1))
  }

  /** The procedures parseProgram collects: one per round until the next token is
   *  EndOfFile. */
  function ParseProcedures(s: string): (r: Result<seq<Procedure>>)
    decreases |s|
  {
    var tok :- PeekToken(s);
    if tok.kind == EndOfFile then Ok([])
    else
      var proc :- ParseProcedure(s);
      var more :- ParseProcedures(proc.1);
      Ok([proc.0] + more)
  }

  /** The program parseProgram returns, or its error. */
  function ProgramOf(r: Result<seq<Procedure>>): Result<Program>
  {
    match r
    case Ok(procs) => Ok(Program(procs))
    case Err(msg) => Err(msg)
  }

  /** procs, then what r parsed, or r's error. */
  function Prepend(procs: seq<Procedure>, r: Result<seq<Procedure>>): Result<seq<Procedure>>
  {
    match r
    case Ok(more) => Ok(procs + more)
    case Err(msg) => Err(msg)
  }

  /** One round of parseProgram's loop, in terms of ParseProcedures. */
  lemma ProceduresStep(s: string)
    ensures PeekToken(s).Err? ==> ParseProcedures(s) == Err(PeekToken(s).msg)
    ensures PeekToken(s).Ok? && PeekToken(s).value.kind == EndOfFile ==> ParseProcedures(s) == Ok([])
    ensures PeekToken(s).Ok? && PeekToken(s).value.kind != EndOfFile && ParseProcedure(s).Err?
            ==> ParseProcedures(s) == Err(ParseProcedure(s).msg)
    ensures PeekToken(s).Ok? && PeekToken(s).value.kind != EndOfFile && ParseProcedure(s).Ok?
            ==> ParseProcedures(s) == Prepend([ParseProcedure(s).value.0], ParseProcedures(ParseProcedure(s).value.1))
  {
  }

  lemma PrependAssoc(procs: seq<Procedure>, p: Procedure, r: Result<seq<Procedure>>)
    ensures Prepend(procs + [p], r) == Prepend(procs, Prepend([p], r))
  {
    if r.Ok? {
      assert (procs + [p]) + r.value == procs + ([p] + r.value);
    }
  }

  lemma PrependNil(r: Result<seq<Procedure>>)
    ensures Prepend([], r) == r
  {
    if r.Ok? {
      assert [] + r.value == r.value;
    }
  }

  /** parseProgram, with its loop. */
  method ParseProgram(input: string) returns (r: Result<Program>)
    ensures r == ProgramOf(ParseProcedures(input))
  {
    var stream := input;
    var procedures: seq<Procedure> := [];
    PrependNil(ParseProcedures(input));
    while true
      invariant ParseProcedures(input) == Prepend(procedures, ParseProcedures(stream))
      decreases |stream|
    {
      ProceduresStep(stream);
      var t := PeekNextToken(stream);
      if t.Err? {
        return Err(t.msg);
      }
      if t.value.kind == EndOfFile {
        assert procedures + [] == procedures;
        break;
      }
      var proc := ParseProcedure(stream);
      if proc.Err? {
        return Err(proc.msg);
      }
      PrependAssoc(procedures, proc.value.0, ParseProcedures(proc.value.1));
      procedures := procedures + [proc.value.0];
      stream := proc.value.1;
    }
    r := Ok(Program(procedures));
  }

  /** parseExpression: an expression that must make up the whole input. */
  function ParseExpression(input: string): (r: Result<Expr>)
  {
    var e :- ParseExpr(input);
    var tok :- NextToken(e.1);
    if tok.0.kind != EndOfFile then Err("unexpected token '" + tok.0.text + "' after expression")
    else Ok(e.0)
  }
}
