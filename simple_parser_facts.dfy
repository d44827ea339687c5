/**
 * Behaviour of the SIMPLE parser on text that is not in canonical form: operator
 * precedence and associativity, and the error conditions of expressions, statement lists,
 * `if` statements and conditions.
 */
module SimpleParserFacts {
  import opened Wrappers
  import opened SimpleAst
  import opened SimpleLexer
  import opened SimpleParser
  import opened SimpleStringify
  import opened SimpleRoundTrip

  /** '+' and '-' bind with precedence 1, '*', '/' and '%' with 2, every other token not at
   *  all. */
  lemma PrecedenceSpec(tt: TokenType)
    ensures Precedence(tt) == 1 <==> tt == Plus || tt == Minus
    ensures Precedence(tt) == 2 <==> tt == Asterisk || tt == Slash || tt == Percent
    ensures Precedence(tt) != 1 && Precedence(tt) != 2 ==> Precedence(tt) == -1
  {
  }

  // ---------------------------------------------------------------- unspaced arithmetic

  /** The token type of a one-character arithmetic operator. */
  function ArithKind(c: char): TokenType
  {
    match c
    case '+' => Plus
    case '-' => Minus
    case '*' => Asterisk
    case '/' => Slash
    case _ => Percent
  }

  predicate IsArithChar(c: char)
  {
    c == '+' || c == '-' || c == '*' || c == '/' || c == '%'
  }

  /** An arithmetic operator character is a token of its own, whatever follows it. */
  lemma LexArith(c: char, rest: string)
    requires IsArithChar(c)
    ensures NextToken([c] + rest) == Ok((Token([c], ArithKind(c)), rest))
    ensures PeekToken([c] + rest) == Ok(Token([c], ArithKind(c)))
  {
    var s := [c] + rest;
    if |s| >= 2 {
      assert s[0] == c;
    }
    LexSingle(c, rest);
  }

  /** A numeral directly followed by an arithmetic operator is a primary on its own. */
  lemma NumeralBeforeOp(x: string, c: char, rest: string)
    requires IsNumeral(x) && IsArithChar(c)
    ensures ParsePrimary(x + ([c] + rest)) == Ok((Constant(x), [c] + rest))
  {
    LexNumeral(x, [c] + rest);
  }

  /** A numeral at the very end of the input is a primary, followed by end of input. */
  lemma NumeralAtEnd(x: string)
    requires IsNumeral(x)
    ensures ParsePrimary(x) == Ok((Constant(x), ""))
    ensures PeekToken("") == Ok(Token("", EndOfFile)) && NextToken("") == Ok((Token("", EndOfFile), ""))
  {
    assert x + "" == x;
    LexNumeral(x, "");
  }

  /** Precedence climbing stops at the end of the input. */
  lemma RhsAtEnd(lhs: Expr, priority: int)
    requires priority >= 0
    ensures ParseRhs(lhs, priority, "") == Ok((lhs, ""))
  {
    EndOfFileSpec("");
  }

  /** An operator that binds at least `priority`, then a last numeral, extends the tree. */
  lemma RhsLastOperand(lhs: Expr, priority: int, c: char, z: string)
    requires IsArithChar(c) && IsNumeral(z)
    requires 0 <= priority <= Precedence(ArithKind(c))
    ensures ParseRhs(lhs, priority, [c] + z) == Ok((BinaryOp([c], lhs, Constant(z)), ""))
  {
    LexArith(c, z);
    NumeralAtEnd(z);
    RhsAtEnd(BinaryOp([c], lhs, Constant(z)), priority);
  }

  /** One round of precedence climbing whose right operand is not extended: the operator
   *  that follows it binds no tighter. */
  lemma RhsRoundFlat(lhs: Expr, priority: int, s: string, op: Token, s1: string,
                     y: Expr, s2: string, next: Token)
    requires 0 <= priority <= Precedence(op.kind)
    requires PeekToken(s) == Ok(op) && NextToken(s) == Ok((op, s1))
    requires ParsePrimary(s1) == Ok((y, s2))
    requires PeekToken(s2) == Ok(next) && Precedence(next.kind) <= Precedence(op.kind)
    ensures ParseRhs(lhs, priority, s) == ParseRhs(BinaryOp(op.text, lhs, y), priority, s2)
  {
  }

  /** One round of precedence climbing whose right operand is first extended by a tighter
   *  operator. */
  lemma RhsRoundNested(lhs: Expr, priority: int, s: string, op: Token, s1: string,
                       y: Expr, s2: string, next: Token, y': Expr, s3: string)
    requires 0 <= priority <= Precedence(op.kind)
    requires PeekToken(s) == Ok(op) && NextToken(s) == Ok((op, s1))
    requires ParsePrimary(s1) == Ok((y, s2))
    requires PeekToken(s2) == Ok(next) && Precedence(next.kind) > Precedence(op.kind)
    requires ParseRhs(y, Precedence(op.kind) + 1, s2) == Ok((y', s3))
    ensures ParseRhs(lhs, priority, s) == ParseRhs(BinaryOp(op.text, lhs, y'), priority, s3)
  {
  }

  /** An expression that leaves nothing behind is what parseExpression returns. */
  lemma WholeExpression(s: string, e: Expr)
    requires ParseExpr(s) == Ok((e, ""))
    ensures ParseExpression(s) == Ok(e)
  {
    EndOfFileSpec("");
  }

  /** Two operators between three numerals, x c1 y c2 z: when c1 binds at least as tightly
   *  as c2 the left pair is grouped first, so equal precedence associates to the left
   *  ("1-2-3" is ((1 - 2) - 3), "1*2+3" is ((1 * 2) + 3)); when c2 binds tighter it takes y
   *  ("1+2*3" is (1 + (2 * 3))). */
  lemma {:induction false} ThreeOperands(x: string, c1: char, y: string, c2: char, z: string)
    requires IsNumeral(x) && IsNumeral(y) && IsNumeral(z)
    requires IsArithChar(c1) && IsArithChar(c2)
    ensures var X, Y, Z := Constant(x), Constant(y), Constant(z);
            ParseExpression(x + [c1] + y + [c2] + z)
            == if Precedence(ArithKind(c1)) >= Precedence(ArithKind(c2))
               then Ok(BinaryOp([c2], BinaryOp([c1], X, Y), Z))
               else Ok(BinaryOp([c1], X, BinaryOp([c2], Y, Z)))
  {
    var X, Y, Z := Constant(x), Constant(y), Constant(z);
    var t0 := [c1] + (y + ([c2] + z));
    assert x + [c1] + y + [c2] + z == x + t0;
    if Precedence(ArithKind(c1)) >= Precedence(ArithKind(c2)) {
      GroupLeft(x, c1, y, c2, z);
      WholeExpression(x + t0, BinaryOp([c2], BinaryOp([c1], X, Y), Z));
    } else {
      GroupRight(x, c1, y, c2, z);
      WholeExpression(x + t0, BinaryOp([c1], X, BinaryOp([c2], Y, Z)));
    }
  }

  /** ThreeOperands when c1 binds at least as tightly as c2. */
  lemma GroupLeft(x: string, c1: char, y: string, c2: char, z: string)
    requires IsNumeral(x) && IsNumeral(y) && IsNumeral(z)
    requires IsArithChar(c1) && IsArithChar(c2)
    requires Precedence(ArithKind(c1)) >= Precedence(ArithKind(c2))
    ensures ParseExpr(x + ([c1] + (y + ([c2] + z))))
            == Ok((BinaryOp([c2], BinaryOp([c1], Constant(x), Constant(y)), Constant(z)), ""))
  {
    var t1 := [c2] + z;
    var t0 := [c1] + (y + t1);
    NumeralBeforeOp(x, c1, y + t1);
    LexArith(c1, y + t1);
    NumeralBeforeOp(y, c2, z);
    LexArith(c2, z);
    RhsRoundFlat(Constant(x), 0, t0, Token([c1], ArithKind(c1)), y + t1, Constant(y), t1,
                 Token([c2], ArithKind(c2)));
    RhsLastOperand(BinaryOp([c1], Constant(x), Constant(y)), 0, c2, z);
  }

  /** ThreeOperands when c2 binds tighter than c1. */
  lemma GroupRight(x: string, c1: char, y: string, c2: char, z: string)
    requires IsNumeral(x) && IsNumeral(y) && IsNumeral(z)
    requires IsArithChar(c1) && IsArithChar(c2)
    requires Precedence(ArithKind(c1)) < Precedence(ArithKind(c2))
    ensures ParseExpr(x + ([c1] + (y + ([c2] + z))))
            == Ok((BinaryOp([c1], Constant(x), BinaryOp([c2], Constant(y), Constant(z))), ""))
  {
    var t1 := [c2] + z;
    var t0 := [c1] + (y + t1);
    ArithPrecedence(c1);
    NumeralBeforeOp(x, c1, y + t1);
    LexArith(c1, y + t1);
    NumeralBeforeOp(y, c2, z);
    LexArith(c2, z);
    RhsLastOperand(Constant(y), Precedence(ArithKind(c1)) + 1, c2, z);
    NestedExpr(x + t0, Constant(x), t0, Token([c1], ArithKind(c1)), y + t1, Constant(y), t1,
               Token([c2], ArithKind(c2)), BinaryOp([c2], Constant(y), Constant(z)));
  }

  lemma ArithPrecedence(c: char)
    requires IsArithChar(c)
    ensures Precedence(ArithKind(c)) >= 1
  {
  }

  /** A primary, an operator, and a right operand that a tighter operator extends to the end
   *  of the input: the whole is one node whose right child is the extended operand. */
  lemma NestedExpr(s: string, lhs: Expr, t0: string, op: Token, s1: string, y: Expr, s2: string,
                   next: Token, y': Expr)
    requires ParsePrimary(s) == Ok((lhs, t0))
    requires 0 <= Precedence(op.kind)
    requires PeekToken(t0) == Ok(op) && NextToken(t0) == Ok((op, s1))
    requires ParsePrimary(s1) == Ok((y, s2))
    requires PeekToken(s2) == Ok(next) && Precedence(next.kind) > Precedence(op.kind)
    requires ParseRhs(y, Precedence(op.kind) + 1, s2) == Ok((y', ""))
    ensures ParseExpr(s) == Ok((BinaryOp(op.text, lhs, y'), ""))
  {
    RhsRoundNested(lhs, 0, t0, op, s1, y, s2, next, y', "");
    RhsAtEnd(BinaryOp(op.text, lhs, y'), 0);
  }

  /** The unit-test case of left associativity: "1-2-3" is ((1 - 2) - 3). */
  lemma LeftAssociativity()
    ensures ParseExpression("1-2-3")
            == Ok(BinaryOp("-", BinaryOp("-", Constant("1"), Constant("2")), Constant("3")))
  {
    assert IsNumeral("1") && IsNumeral("2") && IsNumeral("3");
    ThreeOperands("1", '-', "2", '-', "3");
    assert "1" + ['-'] + "2" + ['-'] + "3" == "1-2-3";
  }

  /** The unit-test cases of precedence: "1+2*3" is (1 + (2 * 3)) and "1*2+3" is
   *  ((1 * 2) + 3). */
  lemma MultiplicationBindsTighter()
    ensures ParseExpression("1+2*3")
            == Ok(BinaryOp("+", Constant("1"), BinaryOp("*", Constant("2"), Constant("3"))))
    ensures ParseExpression("1*2+3")
            == Ok(BinaryOp("+", BinaryOp("*", Constant("1"), Constant("2")), Constant("3")))
  {
    PlusTimes();
    TimesPlus();
  }

  lemma PlusTimes()
    ensures ParseExpression("1+2*3")
            == Ok(BinaryOp("+", Constant("1"), BinaryOp("*", Constant("2"), Constant("3"))))
  {
    assert IsNumeral("1") && IsNumeral("2") && IsNumeral("3");
    ThreeOperands("1", '+', "2", '*', "3");
    assert "1" + ['+'] + "2" + ['*'] + "3" == "1+2*3";
  }

  lemma TimesPlus()
    ensures ParseExpression("1*2+3")
            == Ok(BinaryOp("+", BinaryOp("*", Constant("1"), Constant("2")), Constant("3")))
  {
    assert IsNumeral("1") && IsNumeral("2") && IsNumeral("3");
    ThreeOperands("1", '*', "2", '+', "3");
    assert "1" + ['*'] + "2" + ['+'] + "3" == "1*2+3";
  }

  /** parseExpression must consume the whole input: a comparison after an expression is a
   *  trailing token, as in "1 < 2". */
  lemma {:induction false} TrailingTokenRejected(x: string, y: string)
    requires IsNumeral(x)
    ensures ParseExpression(x + " < " + y) == Err("unexpected token '<' after expression")
  {
    NumeralThenComparison(x, y);
    TrailingToken(x + " < " + y, Constant(x), " < " + y, Token("<", LAngle));
    LessMessage();
  }

  /** A numeral followed by a comparison is an expression on its own. */
  lemma NumeralThenComparison(x: string, y: string)
    requires IsNumeral(x)
    ensures ParseExpr(x + " < " + y) == Ok((Constant(x), " < " + y))
    ensures NextToken(" < " + y) == Ok((Token("<", LAngle), " " + y))
  {
    var t := " < " + y;
    assert x + " < " + y == x + t;
    LexNumeral(x, t);
    assert t == " " + "<" + " " + y;
    SpacedOp("<", y);
    OpKindFacts("<");
    assert ParseRhs(Constant(x), 0, t) == Ok((Constant(x), t));
  }

  /** A token other than end of input left after the expression is reported. */
  lemma TrailingToken(s: string, e: Expr, t: string, tok: Token)
    requires ParseExpr(s) == Ok((e, t))
    requires NextToken(t).Ok? && NextToken(t).value.0 == tok && tok.kind != EndOfFile
    ensures ParseExpression(s) == Err("unexpected token '" + tok.text + "' after expression")
  {
  }

  lemma LessMessage()
    ensures "unexpected token '" + "<" + "' after expression" == "unexpected token '<' after expression"
  {
  }

  // ---------------------------------------------------------------- statement lists

  /** A statement list that parses holds at least one statement. */
  lemma StmtListNonEmpty(s: string)
    ensures ParseStmtList(s).Ok? ==> |ParseStmtList(s).value.0| > 0
  {
  }

  /** "{}" is rejected: the grammar asks for stmt+. */
  lemma EmptyListRejected(rest: string)
    ensures ParseStmtList("{}" + rest) == Err("expected at least one statement between '{' and '}'")
  {
    assert "{}" + rest == "{" + ("}" + rest);
    LexPunct('{', "}" + rest);
    StmtsEnd(rest);
    LexPunct('}', rest);
  }

  /** Statements running into the end of the input without a closing '}' are rejected. */
  lemma {:induction false} UnclosedStatements(ss: seq<Stmt>)
    requires forall i :: 0 <= i < |ss| ==> WfStmt(ss[i])
    ensures ParseStmts(StmtsToString(ss)) == Err("unexpected end of file (expected '}')")
  {
    if |ss| == 0 {
      EndOfFileSpec("");
    } else {
      var more := StmtsToString(ss[1..]);
      assert StmtsToString(ss) == StmtToString(ss[0]) + more;
      assert WfStmt(ss[0]);
      FirstTokenIsName(ss[0], more);
      StmtRoundTrip(ss[0], more);
      UnclosedStatements(ss[1..]);
    }
  }

  /** A list whose '}' is missing is rejected. */
  lemma UnclosedList(ss: seq<Stmt>)
    requires forall i :: 0 <= i < |ss| ==> WfStmt(ss[i])
    ensures ParseStmtList("{" + StmtsToString(ss)) == Err("unexpected end of file (expected '}')")
  {
    UnclosedStatements(ss);
    ListBodyFails(StmtsToString(ss));
  }

  /** A list whose statements fail to parse fails with their error. */
  lemma ListBodyFails(body: string)
    requires ParseStmts(body).Err?
    ensures ParseStmtList("{" + body) == Err(ParseStmts(body).msg)
  {
    LexPunct('{', body);
    ListErrStep("{" + body, body);
  }

  lemma ListErrStep(s: string, body: string)
    requires NextToken(s) == Ok((Token("{", LBrace), body))
    requires ParseStmts(body).Err?
    ensures ParseStmtList(s) == Err(ParseStmts(body).msg)
  {
  }

  // ---------------------------------------------------------------- statements

  /** A keyword followed by '=' is the target of an assignment: "read = e;" assigns to a
   *  variable named read, and likewise for print, call, if and while. */
  lemma KeywordAsAssignmentTarget(kw: string, e: Expr, rest: string)
    requires kw == "read" || kw == "print" || kw == "call" || kw == "if" || kw == "while"
    requires WfArith(e)
    ensures ParseStmt(kw + " = " + ExprToString(e) + ";" + rest) == Ok((AssignStmt(kw, e), rest))
  {
    KeywordNames();
    StmtRoundTrip(AssignStmt(kw, e), rest);
  }

  /** One unfolding of parseIfStmt whose then-list is not followed by `else`. */
  lemma IfStepNoElse(body: string, c: Expr, x: string, y: string, ts: seq<Stmt>, z: string)
    requires ParseCond(body, 0) == Ok((c, ")" + x))
    requires NextToken(x) == Ok((Token("then", Identifier), y))
    requires ParseStmtList(y) == Ok((ts, z))
    requires NextToken(z).Ok? && NextToken(z).value.0 != Token("else", Identifier)
    ensures ParseIf("(" + body) == Err("'else' clause is mandatory")
  {
    LexOpen(body);
    LexClose(x);
    var then_ := Token("then", Identifier);
    assert then_.kind == Identifier && then_.text == "then";
    var e := NextToken(z).value.0;
    assert e.kind != Identifier || e.text != "else";
  }

  lemma IfNoElseText(c: Expr, t: string, rest: string)
    requires WfCond(c)
    ensures "if" + ParenthesiseConditional(c) + "then" + t + rest
            == "if" + ("(" + (CondInner(c) + ")" + ("then" + (t + rest))))
  {
    ParenOfCond(c);
  }

  /** After `if`, a condition and a then-list not followed by `else` are rejected. */
  lemma IfBodyWithoutElse(c: Expr, t: seq<Stmt>, rest: string)
    requires WfCond(c) && WfStmtList(t)
    requires NextToken(rest).Ok?
    requires NextToken(rest).value.0 != Token("else", Identifier)
    ensures ParseIf("(" + (CondInner(c) + ")" + ("then" + (StmtListToString(t) + rest))))
            == Err("'else' clause is mandatory")
  {
    var y := StmtListToString(t) + rest;
    var x := "then" + y;
    IfPieces(c, t, rest);
    IfGlueNoElse(c, t, rest, x, y);
  }

  /** The condition, the `then` keyword and the then-list of a printed `if` parse back. */
  lemma IfPieces(c: Expr, t: seq<Stmt>, rest: string)
    requires WfCond(c) && WfStmtList(t)
    ensures ParseCond(CondInner(c) + ")" + ("then" + (StmtListToString(t) + rest)), 0)
            == Ok((c, ")" + ("then" + (StmtListToString(t) + rest))))
    ensures NextToken("then" + (StmtListToString(t) + rest))
            == Ok((Token("then", Identifier), StmtListToString(t) + rest))
    ensures ParseStmtList(StmtListToString(t) + rest) == Ok((t, rest))
  {
    CondRoundTrip(c, 0, "then" + (StmtListToString(t) + rest));
    ThenKeyword(t, rest);
    ListRoundTrip(t, rest);
  }

  lemma ThenKeyword(t: seq<Stmt>, rest: string)
    ensures NextToken("then" + (StmtListToString(t) + rest))
            == Ok((Token("then", Identifier), StmtListToString(t) + rest))
  {
    var y := StmtListToString(t) + rest;
    assert y == "{" + (StmtsToString(t) + "}" + rest);
    KeywordNames();
    LexName("then", y);
  }

  /** IfStepNoElse restated over the printed pieces of an `if` without `else`. */
  lemma IfGlueNoElse(c: Expr, t: seq<Stmt>, rest: string, x: string, y: string)
    requires NextToken(rest).Ok?
    requires NextToken(rest).value.0 != Token("else", Identifier)
    requires ParseCond(CondInner(c) + ")" + x, 0) == Ok((c, ")" + x))
    requires NextToken(x) == Ok((Token("then", Identifier), y))
    requires ParseStmtList(y) == Ok((t, rest))
    requires y == StmtListToString(t) + rest
    requires x == "then" + y
    ensures ParseIf("(" + (CondInner(c) + ")" + ("then" + (StmtListToString(t) + rest))))
            == Err("'else' clause is mandatory")
  {
    IfStepNoElse(CondInner(c) + ")" + x, c, x, y, t, rest);
  }

  /** An `if` whose then-list is not followed by `else` is rejected. */
  lemma IfWithoutElse(c: Expr, t: seq<Stmt>, rest: string)
    requires WfCond(c) && WfStmtList(t)
    requires NextToken(rest).Ok?
    requires NextToken(rest).value.0 != Token("else", Identifier)
    ensures ParseStmt("if" + ParenthesiseConditional(c) + "then" + StmtListToString(t) + rest)
            == Err("'else' clause is mandatory")
  {
    IfNoElseText(c, StmtListToString(t), rest);
    IfKeywordStep(CondInner(c) + ")" + ("then" + (StmtListToString(t) + rest)));
    IfBodyWithoutElse(c, t, rest);
  }

  /** A statement starting with `if (` is handed to the `if` parser. */
  lemma IfKeywordStep(body: string)
    ensures ParseStmt("if" + ("(" + body)) == ParseIf("(" + body)
  {
    KeywordNames();
    LexName("if", "(" + body);
    LexPunct('(', body);
    CompoundStep("if" + ("(" + body), "if", "(" + body);
  }

  /** A parenthesised comparison cannot be compared again: "(a < b) < e" is rejected. */
  lemma ChainedRelationalRejected(c: Expr, op: string, e: Expr, rest: string, nesting: nat)
    requires WfCond(c) && IsRelational(c.op)
    requires IsRelational(op)
    ensures ParseCond("(" + CondInner(c) + ") " + op + " " + ExprToString(e) + rest, nesting)
            == Err("relational operators cannot be chained")
  {
    var x := " " + op + " " + (ExprToString(e) + rest);
    ChainText(CondInner(c), op, ExprToString(e), rest);
    CondRoundTrip(c, nesting + 1, x);
    ComparisonAfter(op, ExprToString(e) + rest);
    ParenCondStep(nesting, CondInner(c) + ")" + x, c, x);
    ChainedTail(c, x, nesting);
  }

  lemma ChainText(inner: string, op: string, e: string, rest: string)
    ensures "(" + inner + ") " + op + " " + e + rest == "(" + (inner + ")" + (" " + op + " " + (e + rest)))
  {
  }

  /** A spaced comparison operator is the next token, and it does not continue an
   *  expression. */
  lemma ComparisonAfter(op: string, rest: string)
    requires IsRelational(op)
    ensures PeekToken(" " + op + " " + rest).Ok?
    ensures Precedence(PeekToken(" " + op + " " + rest).value.kind) == -1
    ensures PeekToken(" " + op + " " + rest).value.kind != RParen
    ensures IsRelational(PeekToken(" " + op + " " + rest).value.text)
  {
    SpacedOp(op, rest);
    OpKindFacts(op);
  }

  /** After a parenthesised comparison, another comparison operator is an error. */
  lemma ChainedTail(c: Expr, x: string, nesting: nat)
    requires c.BinaryOp? && IsRelational(c.op)
    requires PeekToken(x).Ok? && IsRelational(PeekToken(x).value.text)
    requires PeekToken(x).value.kind != RParen
    ensures ParseCondTail(c, x, nesting) == Err("relational operators cannot be chained")
  {
  }
}
