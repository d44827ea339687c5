/**
 * The compact printer and the parser are inverse on well-formed trees: parsing the compact
 * text of a well-formed program gives back the same program, so printing what the parser
 * returns for canonical compact text gives that text again.
 */
module SimpleRoundTrip {
  import opened Wrappers
  import opened SimpleAst
  import opened SimpleLexer
  import opened SimpleParser
  import opened SimpleStringify

  // ---------------------------------------------------------------- well-formed trees

  /** Arithmetic the grammar allows: names, numerals and the five arithmetic operators. */
  predicate WfArith(e: Expr)
  {
    match e
    case VarRef(name) => IsName(name)
    case Constant(value) => IsNumeral(value)
    case BinaryOp(op, lhs, rhs) => IsArithmetic(op) && WfArith(lhs) && WfArith(rhs)
    case UnaryOp(_, _) => false
  }

  /** Conditions: a comparison of two arithmetic expressions, `!` of a condition, or two
   *  conditions joined by `&&` or `||`. */
  predicate WfCond(e: Expr)
  {
    match e
    case VarRef(_) => false
    case Constant(_) => false
    case BinaryOp(op, lhs, rhs) =>
      (IsRelational(op) && WfArith(lhs) && WfArith(rhs))
      || (IsConditional(op) && WfCond(lhs) && WfCond(rhs))
    case UnaryOp(op, inner) => op == "!" && WfCond(inner)
  }

  predicate WfStmt(s: Stmt)
    decreases s
  {
    match s
    case ReadStmt(v) => IsName(v)
    case PrintStmt(v) => IsName(v)
    case ProcCall(p) => IsName(p)
    case AssignStmt(lhs, rhs) => IsName(lhs) && WfArith(rhs)
    case IfStmt(cond, t, f) => WfCond(cond) && WfStmtList(t) && WfStmtList(f)
    case WhileLoop(cond, body) => WfCond(cond) && WfStmtList(body)
  }

  predicate WfStmtList(ss: seq<Stmt>)
    decreases ss
  {
    |ss| > 0 && forall i :: 0 <= i < |ss| ==> WfStmt(ss[i])
  }

  predicate WfProcedure(p: Procedure)
  {
    IsName(p.name) && WfStmtList(p.body)
  }

  predicate WfProgram(p: Program)
  {
    forall i :: 0 <= i < |p.procedures| ==> WfProcedure(p.procedures[i])
  }

  // ---------------------------------------------------------------- tokens of printed text

  /** The token type the lexer gives an operator's text. */
  function OpKind(op: string): TokenType
  {
    if op == "+" then Plus else if op == "-" then Minus else if op == "*" then Asterisk
    else if op == "/" then Slash else if op == "%" then Percent
    else if op == "<" then LAngle else if op == ">" then RAngle
    else if op == ">=" then GreaterEqual else if op == "<=" then LessEqual
    else if op == "==" then EqualsTo else if op == "!=" then NotEqual
    else if op == "&&" then LogicalAnd else if op == "||" then LogicalOr
    else Identifier
  }

  predicate IsOperator(op: string)
  {
    IsArithmetic(op) || IsRelational(op) || IsConditional(op)
  }

  /** An operator followed by the space the printer puts after it lexes as one token. */
  lemma LexOp(op: string, rest: string)
    requires IsOperator(op)
    ensures NextToken(op + " " + rest) == Ok((Token(op, OpKind(op)), " " + rest))
  {
    if |op| == 1 {
      assert [op[0]] == op;
      SpaceSeparates(op[0], rest);
    } else {
      assert op + " " + rest == op + (" " + rest);
      LexDouble(op, " " + rest);
    }
  }

  lemma OpKindFacts(op: string)
    requires IsOperator(op)
    ensures IsArithmetic(op) ==> Precedence(OpKind(op)) >= 1
    ensures !IsArithmetic(op) ==> Precedence(OpKind(op)) == -1
    ensures OpKind(op) != RParen && OpKind(op) != EndOfFile
    ensures IsRelational(op) ==> RelationalOp(OpKind(op)) == Some(op)
    ensures !IsRelational(op) ==> RelationalOp(OpKind(op)).None?
    ensures op == "&&" <==> OpKind(op) == LogicalAnd
    ensures op == "||" <==> OpKind(op) == LogicalOr
  {
  }

  /** A punctuation character other than an operator's first lexes alone, whatever follows. */
  lemma LexPunct(c: char, rest: string)
    requires c == '(' || c == ')' || c == '{' || c == '}' || c == ';'
    ensures NextToken([c] + rest) == Ok((Token([c], SingleCharToken(c).value), rest))
  {
    var s := [c] + rest;
    if |s| >= 2 {
      assert s[..2][0] == c;
    }
    LexSingle(c, rest);
  }

  lemma LexOpen(rest: string)
    ensures NextToken("(" + rest) == Ok((Token("(", LParen), rest))
  {
    LexPunct('(', rest);
  }

  lemma LexClose(rest: string)
    ensures NextToken(")" + rest) == Ok((Token(")", RParen), rest))
  {
    LexPunct(')', rest);
  }

  /** Text with a space in front reads as the same token after it. */
  lemma LexAfterSpace(s: string)
    ensures NextToken(" " + s) == NextToken(s) && PeekToken(" " + s) == PeekToken(s)
  {
    SkipLeadingSpace(s);
  }

  /** What may follow an operand: it does not extend the operand's last token and its own
   *  first token binds no operand. */
  predicate EndsOperand(rest: string)
  {
    (|rest| == 0 || !IsAlnum(rest[0]))
    && PeekToken(rest).Ok? && Precedence(PeekToken(rest).value.kind) == -1
  }

  lemma CloseEndsOperand(rest: string)
    ensures EndsOperand(")" + rest)
    ensures PeekToken(")" + rest) == Ok(Token(")", RParen))
  {
    LexPunct(')', rest);
  }

  lemma SemicolonEndsOperand(rest: string)
    ensures EndsOperand(";" + rest)
  {
    LexPunct(';', rest);
  }

  /** An operator between spaces, as the printer writes it, is the next token. */
  lemma SpacedOp(op: string, rest: string)
    requires IsOperator(op)
    ensures PeekToken(" " + op + " " + rest) == Ok(Token(op, OpKind(op)))
    ensures NextToken(" " + op + " " + rest) == Ok((Token(op, OpKind(op)), " " + rest))
  {
    assert " " + op + " " + rest == " " + (op + " " + rest);
    LexAfterSpace(op + " " + rest);
    LexOp(op, rest);
  }

  lemma OpEndsOperand(op: string, rest: string)
    requires IsRelational(op) || IsConditional(op)
    ensures EndsOperand(" " + op + " " + rest)
  {
    SpacedOp(op, rest);
    OpKindFacts(op);
  }

  // ---------------------------------------------------------------- arithmetic

  /** The text of a binary arithmetic node inside its parentheses. */
  function ArithInner(e: Expr): string
    requires e.BinaryOp?
  {
    ExprToString(e.lhs) + " " + e.op + " " + ExprToString(e.rhs)
  }

  lemma ParsePrimarySpace(s: string)
    ensures ParsePrimary(" " + s) == ParsePrimary(s)
  {
    LexAfterSpace(s);
  }

  lemma ParseExprSpace(s: string)
    ensures ParseExpr(" " + s) == ParseExpr(s)
  {
    ParsePrimarySpace(s);
  }

  /** A printed operand parses back as itself. */
  lemma {:induction false} PrimaryRoundTrip(e: Expr, rest: string)
    requires WfArith(e)
    requires |rest| == 0 || !IsAlnum(rest[0])
    ensures ParsePrimary(ExprToString(e) + rest) == Ok((e, rest))
    decreases e, 3
  {
    match e
    case VarRef(name) =>
      LexName(name, rest);
    case Constant(value) =>
      LexNumeral(value, rest);
    case BinaryOp(_, _, _) =>
      ParenPrimaryRoundTrip(e, rest);
  }

  /** A parenthesised operand parses back as the node inside. */
  lemma {:induction false} ParenPrimaryRoundTrip(e: Expr, rest: string)
    requires WfArith(e) && e.BinaryOp?
    ensures ParsePrimary(ExprToString(e) + rest) == Ok((e, rest))
    decreases e, 2
  {
    ParenText(e, rest);
    LexPunct('(', ArithInner(e) + (")" + rest));
    CloseEndsOperand(rest);
    InnerRoundTrip(e, ")" + rest);
    LexPunct(')', rest);
    ParenPrimaryStep(ExprToString(e) + rest, ArithInner(e) + (")" + rest), e, rest);
  }

  lemma ParenText(e: Expr, rest: string)
    requires WfArith(e) && e.BinaryOp?
    ensures ExprToString(e) + rest == [ '(' ] + (ArithInner(e) + (")" + rest))
  {
    assert ExprToString(e) == "(" + ArithInner(e) + ")";
    ParenAssoc(ArithInner(e), rest);
  }

  lemma ParenAssoc(x: string, rest: string)
    ensures "(" + x + ")" + rest == [ '(' ] + (x + (")" + rest))
  {
  }

  lemma ParenPrimaryStep(s: string, body: string, e: Expr, rest: string)
    requires NextToken(s) == Ok((Token("(", LParen), body))
    requires ParseExpr(body) == Ok((e, ")" + rest))
    requires NextToken(")" + rest) == Ok((Token(")", RParen), rest))
    ensures ParsePrimary(s) == Ok((e, rest))
  {
  }

  /** The inside of a printed arithmetic node parses back as the node. */
  lemma {:induction false} InnerRoundTrip(e: Expr, rest: string)
    requires WfArith(e) && e.BinaryOp?
    requires EndsOperand(rest)
    ensures ParseExpr(ArithInner(e) + rest) == Ok((e, rest))
    decreases e, 1
  {
    var x := " " + e.op + " " + ExprToString(e.rhs) + rest;
    assert ArithInner(e) + rest == ExprToString(e.lhs) + x;
    PrimaryRoundTrip(e.lhs, x);
    RhsRoundTrip(e, rest);
  }

  /** Precedence climbing over the printed operator and right operand builds the node. */
  lemma {:induction false} RhsRoundTrip(e: Expr, rest: string)
    requires WfArith(e) && e.BinaryOp?
    requires EndsOperand(rest)
    ensures ParseRhs(e.lhs, 0, " " + e.op + " " + ExprToString(e.rhs) + rest) == Ok((e, rest))
    decreases e, 0
  {
    var s := " " + e.op + " " + ExprToString(e.rhs) + rest;
    var tail := ExprToString(e.rhs) + rest;
    assert s == " " + (e.op + " " + tail);
    LexAfterSpace(e.op + " " + tail);
    LexOp(e.op, tail);
    OpKindFacts(e.op);
    ParsePrimarySpace(tail);
    PrimaryRoundTrip(e.rhs, rest);
    assert ParseRhs(e, 0, rest) == Ok((e, rest));
  }

  /** A printed arithmetic expression parses back as itself. */
  lemma ExprRoundTrip(e: Expr, rest: string)
    requires WfArith(e)
    requires EndsOperand(rest)
    ensures ParseExpr(ExprToString(e) + rest) == Ok((e, rest))
  {
    PrimaryRoundTrip(e, rest);
  }

  /** parseExpression inverts the printer on arithmetic. */
  lemma ParseExpressionRoundTrip(e: Expr)
    requires WfArith(e)
    ensures ParseExpression(ExprToString(e)) == Ok(e)
  {
    assert ExprToString(e) + "" == ExprToString(e);
    ExprRoundTrip(e, "");
  }

  // ---------------------------------------------------------------- conditions

  /** The text of a condition inside the parentheses parenthesise_conditional gives it. */
  function CondInner(c: Expr): string
  {
    match c
    case BinaryOp(op, lhs, rhs) =>
      if IsConditional(op) then ParenthesiseConditional(lhs) + " " + op + " " + ParenthesiseConditional(rhs)
      else ExprToString(lhs) + " " + op + " " + ExprToString(rhs)
    case UnaryOp(op, inner) => op + ParenthesiseConditional(inner)
    case _ => ""
  }

  /** Every well-formed condition is printed in parentheses. */
  lemma {:induction false} ParenOfCond(c: Expr)
    requires WfCond(c)
    ensures ParenthesiseConditional(c) == "(" + CondInner(c) + ")"
  {
  }

  // One unfolding of parseCondExpr per branch, for the proofs below.

  lemma ParenCondStep(nesting: nat, body: string, lhs: Expr, x: string)
    requires ParseCond(body, nesting + 1) == Ok((lhs, ")" + x))
    requires PeekToken(x).Ok? && Precedence(PeekToken(x).value.kind) == -1
    ensures ParseCond("(" + body, nesting) == ParseCondTail(lhs, x, nesting)
  {
    LexPunct('(', body);
    assert PeekToken("(" + body) == Ok(Token("(", LParen));
    assert ParseCond("(" + body, nesting) == ParseParenCond("(" + body, nesting);
    LexPunct(')', x);
    assert NextToken(")" + x) == Ok((Token(")", RParen), x));
    assert ParseParenCond("(" + body, nesting) == ParseCondTail(lhs, x, nesting);
  }

  lemma ParenArithStep(nesting: nat, body: string, lhs: Expr, x: string, e: Expr, y: string)
    requires ParseCond(body, nesting + 1) == Ok((lhs, ")" + x))
    requires PeekToken(x).Ok? && Precedence(PeekToken(x).value.kind) != -1
    requires ParseRhs(lhs, 0, x) == Ok((e, y))
    ensures ParseCond("(" + body, nesting) == ParseCondTail(e, y, nesting)
  {
    LexPunct('(', body);
    assert PeekToken("(" + body) == Ok(Token("(", LParen));
    assert ParseCond("(" + body, nesting) == ParseParenCond("(" + body, nesting);
    LexPunct(')', x);
    assert NextToken(")" + x) == Ok((Token(")", RParen), x));
    assert ParseParenCond("(" + body, nesting) == ParseCondTail(e, y, nesting);
  }

  lemma ExprCondStep(s: string, nesting: nat, lhs: Expr, x: string)
    requires PeekToken(s).Ok? && PeekToken(s).value.kind in {Identifier, Number}
    requires ParseExpr(s) == Ok((lhs, x))
    requires PeekToken(x).Ok?
    ensures ParseCond(s, nesting)
            == if PeekToken(x).value.kind == RParen && nesting > 0 then Ok((lhs, x))
               else ParseRelational(lhs, x)
  {
  }

  lemma NotCondStep(nesting: nat, body: string, inner: Expr, x: string)
    requires ParseCond(body, nesting + 1) == Ok((inner, ")" + x))
    ensures ParseCond("!" + ("(" + body), nesting) == Ok((UnaryOp("!", inner), x))
  {
    var s := "!" + ("(" + body);
    BangLexes(body);
    assert ParseCond(s, nesting) == ParseNot(s, nesting);
    LexPunct('(', body);
    LexPunct(')', x);
    assert NextToken(")" + x) == Ok((Token(")", RParen), x));
  }

  /** A '!' before '(' is one Exclamation token. */
  lemma BangLexes(body: string)
    ensures NextToken("!" + ("(" + body)) == Ok((Token("!", Exclamation), "(" + body))
    ensures PeekToken("!" + ("(" + body)) == Ok(Token("!", Exclamation))
  {
    var s := "!" + ("(" + body);
    assert s[..2] == "!(";
    LexSingle('!', "(" + body);
  }

  /** Inside parentheses (nesting at least one), the inside of an arithmetic node parses as
   *  the node and stops at the closing parenthesis. */
  lemma {:induction false} ArithCondRoundTrip(e: Expr, nesting: nat, rest: string)
    requires WfArith(e) && e.BinaryOp? && nesting >= 1
    ensures ParseCond(ArithInner(e) + ")" + rest, nesting) == Ok((e, ")" + rest))
    decreases e, 2
  {
    if e.lhs.BinaryOp? {
      ArithCondNested(e, nesting, rest);
    } else {
      ArithCondFlat(e, nesting, rest);
    }
  }

  /** ArithCondRoundTrip when the left operand is itself parenthesised. */
  lemma {:induction false} ArithCondNested(e: Expr, nesting: nat, rest: string)
    requires WfArith(e) && e.BinaryOp? && e.lhs.BinaryOp? && nesting >= 1
    ensures ParseCond(ArithInner(e) + ")" + rest, nesting) == Ok((e, ")" + rest))
    decreases e, 1
  {
    assert WfArith(e.lhs);
    NestedLhsRoundTrip(e, nesting, AfterLhs(e, rest));
    ArithNestedGlue(e, nesting, rest);
  }

  /** The parenthesised left operand of an arithmetic node parses back one level deeper. */
  lemma {:induction false} NestedLhsRoundTrip(e: Expr, nesting: nat, x: string)
    requires e.BinaryOp? && e.lhs.BinaryOp? && WfArith(e.lhs)
    ensures ParseCond(ArithInner(e.lhs) + ")" + x, nesting + 1) == Ok((e.lhs, ")" + x))
    decreases e, 0
  {
    ArithCondRoundTrip(e.lhs, nesting + 1, x);
  }

  /** The text after the left operand of a printed arithmetic node, up to and including the
   *  node's closing parenthesis. */
  function AfterLhs(e: Expr, rest: string): string
    requires e.BinaryOp?
  {
    " " + e.op + " " + ExprToString(e.rhs) + (")" + rest)
  }

  lemma ArithNestedGlue(e: Expr, nesting: nat, rest: string)
    requires WfArith(e) && e.BinaryOp? && e.lhs.BinaryOp? && nesting >= 1
    requires ParseCond(ArithInner(e.lhs) + ")" + AfterLhs(e, rest), nesting + 1) == Ok((e.lhs, ")" + AfterLhs(e, rest)))
    ensures ParseCond(ArithInner(e) + ")" + rest, nesting) == Ok((e, ")" + rest))
  {
    var x := AfterLhs(e, rest);
    ArithConcat(e, rest);
    ArithRest(e, nesting, rest);
    ParenArithStep(nesting, ArithInner(e.lhs) + ")" + x, e.lhs, x, e, ")" + rest);
  }

  /** What follows the parenthesised left operand: an arithmetic operator whose right operand
   *  completes the node, which the enclosing parenthesis then closes. */
  lemma ArithRest(e: Expr, nesting: nat, rest: string)
    requires WfArith(e) && e.BinaryOp? && nesting >= 1
    ensures var x := " " + e.op + " " + ExprToString(e.rhs) + (")" + rest);
            PeekToken(x).Ok? && Precedence(PeekToken(x).value.kind) != -1
            && ParseRhs(e.lhs, 0, x) == Ok((e, ")" + rest))
            && ParseCondTail(e, ")" + rest, nesting) == Ok((e, ")" + rest))
  {
    var tail := ExprToString(e.rhs) + (")" + rest);
    ArithConcat2(e, rest);
    SpacedOp(e.op, tail);
    OpKindFacts(e.op);
    CloseEndsOperand(rest);
    RhsRoundTrip(e, ")" + rest);
  }

  lemma ArithConcat2(e: Expr, rest: string)
    requires e.BinaryOp?
    ensures " " + e.op + " " + ExprToString(e.rhs) + (")" + rest)
            == " " + e.op + " " + (ExprToString(e.rhs) + (")" + rest))
  {
  }

  /** How the printed text of a node with a parenthesised left operand splits. */
  lemma ArithConcat(e: Expr, rest: string)
    requires e.BinaryOp? && e.lhs.BinaryOp? && !IsConditional(e.lhs.op)
    ensures ArithInner(e) + ")" + rest
            == "(" + (ArithInner(e.lhs) + ")" + (" " + e.op + " " + ExprToString(e.rhs) + (")" + rest)))
  {
  }

  /** ArithCondRoundTrip when the left operand is a name or a number. */
  lemma ArithCondFlat(e: Expr, nesting: nat, rest: string)
    requires WfArith(e) && e.BinaryOp? && !e.lhs.BinaryOp? && nesting >= 1
    ensures ParseCond(ArithInner(e) + ")" + rest, nesting) == Ok((e, ")" + rest))
  {
    FlatInnerParses(e, rest);
    FlatInnerStarts(e, rest);
    CloseEndsOperand(rest);
    ExprCondStep(ArithInner(e) + ")" + rest, nesting, e, ")" + rest);
  }

  lemma FlatInnerParses(e: Expr, rest: string)
    requires WfArith(e) && e.BinaryOp? && !e.lhs.BinaryOp?
    ensures ParseExpr(ArithInner(e) + ")" + rest) == Ok((e, ")" + rest))
  {
    assert ArithInner(e) + ")" + rest == ArithInner(e) + (")" + rest);
    CloseEndsOperand(rest);
    InnerRoundTrip(e, ")" + rest);
  }

  /** The inside of an arithmetic node with a plain left operand starts with a name or a
   *  number. */
  lemma FlatInnerStarts(e: Expr, rest: string)
    requires WfArith(e) && e.BinaryOp? && !e.lhs.BinaryOp?
    ensures PeekToken(ArithInner(e) + ")" + rest).Ok?
    ensures PeekToken(ArithInner(e) + ")" + rest).value.kind in {Identifier, Number}
  {
    var x := " " + e.op + " " + ExprToString(e.rhs) + (")" + rest);
    assert ArithInner(e) + ")" + rest == ExprToString(e.lhs) + x;
    assert x[0] == ' ';
    if e.lhs.VarRef? {
      LexName(e.lhs.name, x);
    } else {
      LexNumeral(e.lhs.value, x);
    }
  }

  // ---------------------------------------------------------------- comparisons and joins

  lemma RelationalStep(lhs: Expr, s: string, op: string, rhs: Expr, y: string)
    requires NextToken(s).Ok? && RelationalOp(NextToken(s).value.0.kind) == Some(op)
    requires ParseExpr(NextToken(s).value.1) == Ok((rhs, y))
    ensures ParseRelational(lhs, s) == Ok((BinaryOp(op, lhs, rhs), y))
  {
  }

  lemma TailRelationalStep(lhs: Expr, s: string, nesting: nat)
    requires PeekToken(s).Ok? && PeekToken(s).value.kind != RParen
    requires IsRelational(PeekToken(s).value.text) && !IsRelationalExpr(lhs)
    ensures ParseCondTail(lhs, s, nesting) == ParseRelational(lhs, s)
  {
  }

  lemma TailJoinStep(lhs: Expr, s: string, nesting: nat)
    requires PeekToken(s).Ok? && PeekToken(s).value.kind != RParen
    requires !IsRelational(PeekToken(s).value.text) && IsConditional(PeekToken(s).value.text)
    ensures ParseCondTail(lhs, s, nesting) == ParseBinaryCond(lhs, s)
  {
  }

  lemma JoinStep(lhs: Expr, s: string, op: string, t: string, body: string, rhs: Expr, y: string)
    requires IsConditional(op)
    requires NextToken(s) == Ok((Token(op, OpKind(op)), t))
    requires NextToken(t) == Ok((Token("(", LParen), body))
    requires ParseCond(body, 1) == Ok((rhs, ")" + y))
    ensures ParseBinaryCond(lhs, s) == Ok((BinaryOp(op, lhs, rhs), y))
  {
    OpKindFacts(op);
    LexPunct(')', y);
    assert NextToken(")" + y) == Ok((Token(")", RParen), y));
  }

  /** The operator after the left operand of a printed binary node is the next token. */
  lemma OpAfterLhs(e: Expr, rest: string)
    requires e.BinaryOp? && IsOperator(e.op)
    ensures NextToken(AfterLhs(e, rest))
            == Ok((Token(e.op, OpKind(e.op)), " " + (ExprToString(e.rhs) + (")" + rest))))
    ensures PeekToken(AfterLhs(e, rest)) == Ok(Token(e.op, OpKind(e.op)))
  {
    ArithConcat2(e, rest);
    SpacedOp(e.op, ExprToString(e.rhs) + (")" + rest));
  }

  lemma SpacedExpr(e: Expr, rest: string)
    requires WfArith(e)
    ensures ParseExpr(" " + (ExprToString(e) + (")" + rest))) == Ok((e, ")" + rest))
  {
    ParseExprSpace(ExprToString(e) + (")" + rest));
    CloseEndsOperand(rest);
    ExprRoundTrip(e, ")" + rest);
  }

  /** The relational operator and right operand of a printed comparison complete it. */
  lemma RelationalTail(c: Expr, rest: string)
    requires c.BinaryOp? && IsRelational(c.op) && WfArith(c.rhs)
    ensures ParseRelational(c.lhs, AfterLhs(c, rest)) == Ok((c, ")" + rest))
  {
    OpAfterLhs(c, rest);
    OpKindFacts(c.op);
    SpacedExpr(c.rhs, rest);
    RelationalStep(c.lhs, AfterLhs(c, rest), c.op, c.rhs, ")" + rest);
  }

  /** A comparison whose left operand is a name or a number. */
  lemma RelationalFlat(c: Expr, nesting: nat, rest: string)
    requires WfCond(c) && c.BinaryOp? && IsRelational(c.op) && !c.lhs.BinaryOp?
    ensures ParseCond(CondInner(c) + ")" + rest, nesting) == Ok((c, ")" + rest))
  {
    var x := AfterLhs(c, rest);
    var s := CondInner(c) + ")" + rest;
    RelationalConcat(c, rest);
    FlatOperand(c, rest);
    OpAfterLhs(c, rest);
    OpKindFacts(c.op);
    ExprCondStep(s, nesting, c.lhs, x);
    RelationalTail(c, rest);
  }

  /** A name or number operand followed by a spaced operator parses as itself. */
  lemma FlatOperand(c: Expr, rest: string)
    requires WfCond(c) && c.BinaryOp? && IsRelational(c.op) && !c.lhs.BinaryOp?
    ensures var s := ExprToString(c.lhs) + AfterLhs(c, rest);
            PeekToken(s).Ok? && PeekToken(s).value.kind in {Identifier, Number}
            && ParseExpr(s) == Ok((c.lhs, AfterLhs(c, rest)))
  {
    var x := AfterLhs(c, rest);
    ArithConcat2(c, rest);
    OpEndsOperand(c.op, ExprToString(c.rhs) + (")" + rest));
    assert x[0] == ' ';
    if c.lhs.VarRef? {
      LexName(c.lhs.name, x);
    } else {
      LexNumeral(c.lhs.value, x);
    }
    ExprRoundTrip(c.lhs, x);
  }

  lemma RelationalConcat(c: Expr, rest: string)
    requires c.BinaryOp? && !IsConditional(c.op)
    ensures CondInner(c) + ")" + rest == ExprToString(c.lhs) + AfterLhs(c, rest)
    ensures c.lhs.BinaryOp? && !IsConditional(c.lhs.op) ==>
              CondInner(c) + ")" + rest == "(" + (ArithInner(c.lhs) + ")" + AfterLhs(c, rest))
  {
  }

  /** The operands of a well-formed comparison are arithmetic, and a compound left operand is
   *  neither a comparison nor a conjunction or disjunction. */
  lemma RelationalOperands(c: Expr)
    requires WfCond(c) && c.BinaryOp? && IsRelational(c.op)
    ensures WfArith(c.lhs) && WfArith(c.rhs) && IsOperator(c.op)
    ensures !IsConditional(c.op) && !IsArithmetic(c.op)
    ensures c.lhs.BinaryOp? ==> !IsRelationalExpr(c.lhs) && !IsConditional(c.lhs.op)
  {
  }

  /** A comparison whose left operand is parenthesised arithmetic, given that operand's
   *  round trip. */
  lemma RelationalNestedGlue(c: Expr, nesting: nat, rest: string)
    requires WfCond(c) && c.BinaryOp? && IsRelational(c.op) && c.lhs.BinaryOp?
    requires ParseCond(ArithInner(c.lhs) + ")" + AfterLhs(c, rest), nesting + 1)
             == Ok((c.lhs, ")" + AfterLhs(c, rest)))
    ensures ParseCond(CondInner(c) + ")" + rest, nesting) == Ok((c, ")" + rest))
  {
    var x := AfterLhs(c, rest);
    RelationalOperands(c);
    RelationalConcat(c, rest);
    OpAfterLhs(c, rest);
    OpKindFacts(c.op);
    ParenCondStep(nesting, ArithInner(c.lhs) + ")" + x, c.lhs, x);
    TailRelationalStep(c.lhs, x, nesting);
    RelationalTail(c, rest);
  }

  /** The text after the left operand of a printed `&&`/`||` node. */
  function JoinRest(c: Expr, rest: string): string
    requires c.BinaryOp?
  {
    " " + c.op + " " + ("(" + (CondInner(c.rhs) + ")" + (")" + rest)))
  }

  lemma JoinConcat(c: Expr, rest: string)
    requires WfCond(c) && c.BinaryOp? && IsConditional(c.op)
    ensures CondInner(c) + ")" + rest == "(" + (CondInner(c.lhs) + ")" + JoinRest(c, rest))
  {
    ParenOfCond(c.lhs);
    ParenOfCond(c.rhs);
    JoinText(CondInner(c.lhs), c.op, CondInner(c.rhs), rest);
  }

  lemma JoinText(a: string, op: string, b: string, rest: string)
    ensures ("(" + a + ")") + " " + op + " " + ("(" + b + ")") + ")" + rest
            == "(" + (a + ")" + (" " + op + " " + ("(" + (b + ")" + (")" + rest)))))
  {
  }

  /** An `&&`/`||` node, given the round trips of both operands. */
  lemma JoinGlue(c: Expr, nesting: nat, rest: string)
    requires WfCond(c) && c.BinaryOp? && IsConditional(c.op)
    requires ParseCond(CondInner(c.lhs) + ")" + JoinRest(c, rest), nesting + 1)
             == Ok((c.lhs, ")" + JoinRest(c, rest)))
    requires ParseCond(CondInner(c.rhs) + ")" + (")" + rest), 1) == Ok((c.rhs, ")" + (")" + rest)))
    ensures ParseCond(CondInner(c) + ")" + rest, nesting) == Ok((c, ")" + rest))
  {
    var y := JoinRest(c, rest);
    var body := CondInner(c.rhs) + ")" + (")" + rest);
    JoinConcat(c, rest);
    assert y == " " + c.op + " " + ("(" + body);
    SpacedOp(c.op, "(" + body);
    OpKindFacts(c.op);
    ParenCondStep(nesting, CondInner(c.lhs) + ")" + y, c.lhs, y);
    TailJoinStep(c.lhs, y, nesting);
    LexAfterSpace("(" + body);
    LexPunct('(', body);
    JoinStep(c.lhs, y, c.op, " " + ("(" + body), body, c.rhs, ")" + rest);
  }

  /** A negation, given the round trip of its operand. */
  lemma NotGlue(c: Expr, nesting: nat, rest: string)
    requires WfCond(c) && c.UnaryOp?
    requires ParseCond(CondInner(c.expr) + ")" + (")" + rest), nesting + 1) == Ok((c.expr, ")" + (")" + rest)))
    ensures ParseCond(CondInner(c) + ")" + rest, nesting) == Ok((c, ")" + rest))
  {
    NotText(c, rest);
    NotCondStep(nesting, CondInner(c.expr) + ")" + (")" + rest), c.expr, ")" + rest);
  }

  lemma NotText(c: Expr, rest: string)
    requires WfCond(c) && c.UnaryOp?
    ensures CondInner(c) + ")" + rest == "!" + ("(" + (CondInner(c.expr) + ")" + (")" + rest)))
  {
    ParenOfCond(c.expr);
  }

  /** The inside of a printed condition parses back as the condition, at any nesting. */
  lemma {:induction false} CondRoundTrip(c: Expr, nesting: nat, rest: string)
    requires WfCond(c)
    ensures ParseCond(CondInner(c) + ")" + rest, nesting) == Ok((c, ")" + rest))
    decreases c, 1
  {
    if c.UnaryOp? {
      NotRoundTrip(c, nesting, rest);
    } else if IsConditional(c.op) {
      JoinRoundTrip(c, nesting, rest);
    } else if c.lhs.BinaryOp? {
      RelationalNestedRoundTrip(c, nesting, rest);
    } else {
      RelationalFlat(c, nesting, rest);
    }
  }

  lemma {:induction false} NotRoundTrip(c: Expr, nesting: nat, rest: string)
    requires WfCond(c) && c.UnaryOp?
    ensures ParseCond(CondInner(c) + ")" + rest, nesting) == Ok((c, ")" + rest))
    decreases c, 0
  {
    CondRoundTrip(c.expr, nesting + 1, ")" + rest);
    NotGlue(c, nesting, rest);
  }

  lemma {:induction false} JoinRoundTrip(c: Expr, nesting: nat, rest: string)
    requires WfCond(c) && c.BinaryOp? && IsConditional(c.op)
    ensures ParseCond(CondInner(c) + ")" + rest, nesting) == Ok((c, ")" + rest))
    decreases c, 0
  {
    CondRoundTrip(c.lhs, nesting + 1, JoinRest(c, rest));
    CondRoundTrip(c.rhs, 1, ")" + rest);
    JoinGlue(c, nesting, rest);
  }

  lemma {:induction false} RelationalNestedRoundTrip(c: Expr, nesting: nat, rest: string)
    requires WfCond(c) && c.BinaryOp? && IsRelational(c.op) && c.lhs.BinaryOp?
    ensures ParseCond(CondInner(c) + ")" + rest, nesting) == Ok((c, ")" + rest))
  {
    assert WfArith(c.lhs);
    NestedLhsRoundTrip(c, nesting, AfterLhs(c, rest));
    RelationalNestedGlue(c, nesting, rest);
  }

  // ---------------------------------------------------------------- statements

  lemma KeywordNames()
    ensures IsName("read") && IsName("print") && IsName("call") && IsName("if")
    ensures IsName("while") && IsName("then") && IsName("else") && IsName("procedure")
  {
  }

  lemma ExpectSemicolonStep<T>(value: T, rest: string)
    ensures ExpectSemicolon(value, ";" + rest) == Ok((value, rest))
  {
    LexPunct(';', rest);
    assert NextToken(";" + rest) == Ok((Token(";", Semicolon), rest));
  }

  lemma NamedStep(s: string, kw: string, t: string, name: string, u: string)
    requires kw == "read" || kw == "print" || kw == "call"
    requires NextToken(s) == Ok((Token(kw, Identifier), t))
    requires NextToken(t) == Ok((Token(name, Identifier), u))
    ensures ParseStmt(s)
            == ExpectSemicolon(if kw == "read" then ReadStmt(name) else if kw == "print" then PrintStmt(name)
                               else ProcCall(name), u)
  {
  }

  lemma AssignStep(s: string, lhs: string, t: string, u: string, e: Expr, v: string)
    requires NextToken(s) == Ok((Token(lhs, Identifier), t))
    requires NextToken(t) == Ok((Token("=", Equal), u))
    requires ParseExpr(u) == Ok((e, v))
    ensures ParseStmt(s) == ExpectSemicolon(AssignStmt(lhs, e), v)
  {
  }

  lemma CompoundStep(s: string, kw: string, t: string)
    requires kw == "if" || kw == "while"
    requires NextToken(s) == Ok((Token(kw, Identifier), t))
    requires PeekToken(t).Ok? && PeekToken(t).value.kind == LParen
    ensures ParseStmt(s) == if kw == "if" then ParseIf(t) else ParseWhile(t)
  {
  }

  lemma IfStep(s: string, body: string, c: Expr, x: string, y: string, ts: seq<Stmt>, z: string,
               w: string, fs: seq<Stmt>, rest: string)
    requires NextToken(s) == Ok((Token("(", LParen), body))
    requires ParseCond(body, 0) == Ok((c, ")" + x))
    requires NextToken(")" + x) == Ok((Token(")", RParen), x))
    requires NextToken(x) == Ok((Token("then", Identifier), y))
    requires ParseStmtList(y) == Ok((ts, z))
    requires NextToken(z) == Ok((Token("else", Identifier), w))
    requires ParseStmtList(w) == Ok((fs, rest))
    ensures ParseIf(s) == Ok((IfStmt(c, ts, fs), rest))
  {
    var then_ := Token("then", Identifier);
    var else_ := Token("else", Identifier);
    assert then_.kind == Identifier && then_.text == "then";
    assert else_.kind == Identifier && else_.text == "else";
  }

  lemma WhileStep(s: string, body: string, c: Expr, x: string, bs: seq<Stmt>, rest: string)
    requires NextToken(s) == Ok((Token("(", LParen), body))
    requires ParseCond(body, 0) == Ok((c, ")" + x))
    requires NextToken(")" + x) == Ok((Token(")", RParen), x))
    requires ParseStmtList(x) == Ok((bs, rest))
    ensures ParseWhile(s) == Ok((WhileLoop(c, bs), rest))
  {
  }

  lemma ListStep(body: string, ss: seq<Stmt>, rest: string)
    requires |ss| > 0
    requires ParseStmts(body) == Ok((ss, "}" + rest))
    ensures ParseStmtList("{" + body) == Ok((ss, rest))
  {
    LexPunct('{', body);
    LexPunct('}', rest);
    assert NextToken("{" + body) == Ok((Token("{", LBrace), body));
    assert NextToken("}" + rest) == Ok((Token("}", RBrace), rest));
  }

  lemma StmtsStep(s: string, st: Stmt, t: string, more: seq<Stmt>, u: string)
    requires PeekToken(s).Ok? && PeekToken(s).value.kind == Identifier
    requires ParseStmt(s) == Ok((st, t))
    requires ParseStmts(t) == Ok((more, u))
    ensures ParseStmts(s) == Ok(([st] + more, u))
  {
  }

  lemma StmtsEnd(rest: string)
    ensures ParseStmts("}" + rest) == Ok(([], "}" + rest))
  {
    LexPunct('}', rest);
    assert PeekToken("}" + rest) == Ok(Token("}", RBrace));
  }

  /** `read v;`, `print v;` and `call p;` parse back. */
  lemma NamedRoundTrip(st: Stmt, rest: string)
    requires WfStmt(st) && (st.ReadStmt? || st.PrintStmt? || st.ProcCall?)
    ensures ParseStmt(StmtToString(st) + rest) == Ok((st, rest))
  {
    var kw := if st.ReadStmt? then "read" else if st.PrintStmt? then "print" else "call";
    var name := if st.ReadStmt? then st.varName else if st.PrintStmt? then st.varName else st.procName;
    var u := ";" + rest;
    assert StmtToString(st) == kw + " " + name + ";";
    SimpleTextOf(kw, name, rest);
    KeywordNames();
    LexName(kw, " " + (name + u));
    LexAfterSpace(name + u);
    LexName(name, u);
    NamedStep(StmtToString(st) + rest, kw, " " + (name + u), name, u);
    ExpectSemicolonStep(st, rest);
  }

  /** `v = e;` parses back. */
  lemma AssignRoundTrip(st: Stmt, rest: string)
    requires WfStmt(st) && st.AssignStmt?
    ensures ParseStmt(StmtToString(st) + rest) == Ok((st, rest))
  {
    var e := ExprToString(st.rhs) + (";" + rest);
    AssignTextOf(st.lhs, ExprToString(st.rhs), rest);
    AssignTokens(st.lhs, e);
    AssignRhs(st.rhs, rest);
    AssignStep(StmtToString(st) + rest, st.lhs, " " + ("=" + (" " + e)), " " + e, st.rhs, ";" + rest);
    ExpectSemicolonStep(st, rest);
  }

  lemma AssignTextOf(lhs: string, e: string, rest: string)
    ensures lhs + " = " + e + ";" + rest == lhs + (" " + ("=" + (" " + (e + (";" + rest)))))
  {
  }

  lemma AssignTokens(lhs: string, e: string)
    requires IsName(lhs)
    ensures NextToken(lhs + (" " + ("=" + (" " + e)))) == Ok((Token(lhs, Identifier), " " + ("=" + (" " + e))))
    ensures NextToken(" " + ("=" + (" " + e))) == Ok((Token("=", Equal), " " + e))
  {
    LexName(lhs, " " + ("=" + (" " + e)));
    LexAfterSpace("=" + (" " + e));
    assert "=" + (" " + e) == ['='] + " " + e;
    SpaceSeparates('=', e);
  }

  lemma AssignRhs(e: Expr, rest: string)
    requires WfArith(e)
    ensures ParseExpr(" " + (ExprToString(e) + (";" + rest))) == Ok((e, ";" + rest))
  {
    ParseExprSpace(ExprToString(e) + (";" + rest));
    SemicolonEndsOperand(rest);
    ExprRoundTrip(e, ";" + rest);
  }

  lemma IfText(st: Stmt, rest: string)
    requires WfStmt(st) && st.IfStmt?
    ensures StmtToString(st) + rest
            == "if" + ("(" + (CondInner(st.condition) + ")"
               + ("then" + (StmtListToString(st.trueCase) + ("else" + (StmtListToString(st.falseCase) + rest))))))
  {
    ParenOfCond(st.condition);
    IfTextOf(CondInner(st.condition), StmtListToString(st.trueCase), StmtListToString(st.falseCase), rest);
  }

  lemma IfTextOf(c: string, t: string, f: string, rest: string)
    ensures "if" + ("(" + c + ")") + "then" + t + "else" + f + rest
            == "if" + ("(" + (c + ")" + ("then" + (t + ("else" + (f + rest))))))
  {
  }

  lemma WhileText(st: Stmt, rest: string)
    requires WfStmt(st) && st.WhileLoop?
    ensures StmtToString(st) + rest
            == "while" + ("(" + (CondInner(st.condition) + ")" + (StmtListToString(st.body) + rest)))
  {
    ParenOfCond(st.condition);
  }

  /** The `if` statement, given the round trips of its two lists. */
  lemma IfGlue(st: Stmt, rest: string)
    requires WfStmt(st) && st.IfStmt?
    requires ParseStmtList(StmtListToString(st.trueCase) + ("else" + (StmtListToString(st.falseCase) + rest)))
             == Ok((st.trueCase, "else" + (StmtListToString(st.falseCase) + rest)))
    requires ParseStmtList(StmtListToString(st.falseCase) + rest) == Ok((st.falseCase, rest))
    ensures ParseStmt(StmtToString(st) + rest) == Ok((st, rest))
  {
    var f := StmtListToString(st.falseCase) + rest;
    var y := StmtListToString(st.trueCase) + ("else" + f);
    var body := CondInner(st.condition) + ")" + ("then" + y);
    IfHead(st, rest, body);
    IfBody(st, rest, f, y);
  }

  /** A printed `if` is handed to the `if` parser after its keyword. */
  lemma IfHead(st: Stmt, rest: string, body: string)
    requires WfStmt(st) && st.IfStmt?
    requires body == CondInner(st.condition) + ")"
                     + ("then" + (StmtListToString(st.trueCase) + ("else" + (StmtListToString(st.falseCase) + rest))))
    ensures ParseStmt(StmtToString(st) + rest) == ParseIf("(" + body)
  {
    IfText(st, rest);
    KeywordNames();
    LexName("if", "(" + body);
    LexPunct('(', body);
    CompoundStep(StmtToString(st) + rest, "if", "(" + body);
  }

  /** After its keyword, a printed `if` parses back, given the round trips of its lists. */
  lemma IfBody(st: Stmt, rest: string, f: string, y: string)
    requires WfStmt(st) && st.IfStmt?
    requires f == StmtListToString(st.falseCase) + rest
    requires y == StmtListToString(st.trueCase) + ("else" + f)
    requires ParseStmtList(y) == Ok((st.trueCase, "else" + f))
    requires ParseStmtList(f) == Ok((st.falseCase, rest))
    ensures ParseIf("(" + (CondInner(st.condition) + ")" + ("then" + y))) == Ok((st, rest))
  {
    var x := "then" + y;
    KeywordNames();
    CondRoundTrip(st.condition, 0, x);
    LexName("then", y);
    LexName("else", f);
    LexOpen(CondInner(st.condition) + ")" + x);
    LexClose(x);
    IfStep("(" + (CondInner(st.condition) + ")" + x), CondInner(st.condition) + ")" + x, st.condition, x, y,
           st.trueCase, "else" + f, f, st.falseCase, rest);
  }

  /** The `while` statement, given the round trip of its body. */
  lemma WhileGlue(st: Stmt, rest: string)
    requires WfStmt(st) && st.WhileLoop?
    requires ParseStmtList(StmtListToString(st.body) + rest) == Ok((st.body, rest))
    ensures ParseStmt(StmtToString(st) + rest) == Ok((st, rest))
  {
    var x := StmtListToString(st.body) + rest;
    var body := CondInner(st.condition) + ")" + x;
    WhileHead(st, rest, body);
    WhileBody(st, rest, x);
  }

  /** A printed `while` is handed to the `while` parser after its keyword. */
  lemma WhileHead(st: Stmt, rest: string, body: string)
    requires WfStmt(st) && st.WhileLoop?
    requires body == CondInner(st.condition) + ")" + (StmtListToString(st.body) + rest)
    ensures ParseStmt(StmtToString(st) + rest) == ParseWhile("(" + body)
  {
    WhileText(st, rest);
    KeywordNames();
    LexName("while", "(" + body);
    LexPunct('(', body);
    CompoundStep(StmtToString(st) + rest, "while", "(" + body);
  }

  /** After its keyword, a printed `while` parses back, given the round trip of its body. */
  lemma WhileBody(st: Stmt, rest: string, x: string)
    requires WfStmt(st) && st.WhileLoop?
    requires x == StmtListToString(st.body) + rest
    requires ParseStmtList(x) == Ok((st.body, rest))
    ensures ParseWhile("(" + (CondInner(st.condition) + ")" + x)) == Ok((st, rest))
  {
    var body := CondInner(st.condition) + ")" + x;
    CondRoundTrip(st.condition, 0, x);
    LexOpen(body);
    LexClose(x);
    WhileStep("(" + body, body, st.condition, x, st.body, rest);
  }

  /** Every printed statement starts with a name. */
  lemma FirstTokenIsName(st: Stmt, rest: string)
    requires WfStmt(st)
    ensures PeekToken(StmtToString(st) + rest).Ok?
    ensures PeekToken(StmtToString(st) + rest).value.kind == Identifier
  {
    var w, after := FirstWord(st, rest);
    KeywordNames();
    LexName(w, after);
  }

  /** The first word of a printed statement and the text after it. */
  lemma FirstWord(st: Stmt, rest: string) returns (w: string, after: string)
    requires WfStmt(st)
    ensures StmtToString(st) + rest == w + after
    ensures IsName(w)
    ensures |after| > 0 && !IsAlnum(after[0])
  {
    KeywordNames();
    match st
    case ReadStmt(v) =>
      w, after := "read", " " + (v + (";" + rest));
      SimpleTextOf("read", v, rest);
    case PrintStmt(v) =>
      w, after := "print", " " + (v + (";" + rest));
      SimpleTextOf("print", v, rest);
    case ProcCall(p) =>
      w, after := "call", " " + (p + (";" + rest));
      SimpleTextOf("call", p, rest);
    case AssignStmt(lhs, e) =>
      w, after := lhs, " " + ("=" + (" " + (ExprToString(e) + (";" + rest))));
      AssignTextOf(lhs, ExprToString(e), rest);
    case IfStmt(c, t, f) =>
      w, after := "if", "(" + (CondInner(c) + ")" + ("then" + (StmtListToString(t) + ("else" + (StmtListToString(f) + rest)))));
      IfText(st, rest);
    case WhileLoop(c, b) =>
      w, after := "while", "(" + (CondInner(c) + ")" + (StmtListToString(b) + rest));
      WhileText(st, rest);
  }

  lemma SimpleTextOf(kw: string, name: string, rest: string)
    ensures kw + " " + name + ";" + rest == kw + (" " + (name + (";" + rest)))
  {
  }

  /** A printed statement parses back as itself, whatever follows it. */
  lemma {:induction false} StmtRoundTrip(st: Stmt, rest: string)
    requires WfStmt(st)
    ensures ParseStmt(StmtToString(st) + rest) == Ok((st, rest))
    decreases st, 2
  {
    match st
    case ReadStmt(_) => NamedRoundTrip(st, rest);
    case PrintStmt(_) => NamedRoundTrip(st, rest);
    case ProcCall(_) => NamedRoundTrip(st, rest);
    case AssignStmt(_, _) => AssignRoundTrip(st, rest);
    case IfStmt(_, t, f) =>
      var fText := StmtListToString(f) + rest;
      ListRoundTrip(t, "else" + fText);
      ListRoundTrip(f, rest);
      IfGlue(st, rest);
    case WhileLoop(_, body) =>
      ListRoundTrip(body, rest);
      WhileGlue(st, rest);
  }

  /** A printed statement list parses back as itself. */
  lemma {:induction false} ListRoundTrip(ss: seq<Stmt>, rest: string)
    requires WfStmtList(ss)
    ensures ParseStmtList(StmtListToString(ss) + rest) == Ok((ss, rest))
    decreases ss, 1
  {
    ListText(ss, rest);
    StmtsRoundTrip(ss, rest);
    ListStep(StmtsToString(ss) + ("}" + rest), ss, rest);
  }

  lemma ListText(ss: seq<Stmt>, rest: string)
    requires WfStmtList(ss)
    ensures StmtListToString(ss) + rest == "{" + (StmtsToString(ss) + ("}" + rest))
    ensures |ss| > 0 && forall i :: 0 <= i < |ss| ==> WfStmt(ss[i])
  {
    BracesText(StmtsToString(ss), rest);
  }

  lemma BracesText(x: string, rest: string)
    ensures "{" + x + "}" + rest == "{" + (x + ("}" + rest))
  {
  }

  /** The statements of a printed list parse back up to its closing brace. */
  lemma {:induction false} StmtsRoundTrip(ss: seq<Stmt>, rest: string)
    requires forall i :: 0 <= i < |ss| ==> WfStmt(ss[i])
    ensures ParseStmts(StmtsToString(ss) + ("}" + rest)) == Ok((ss, "}" + rest))
    decreases ss, 0
  {
    if |ss| == 0 {
      assert StmtsToString(ss) + ("}" + rest) == "}" + rest;
      StmtsEnd(rest);
    } else {
      var more := StmtsToString(ss[1..]) + ("}" + rest);
      StmtsSplit(ss, rest);
      FirstTokenIsName(ss[0], more);
      StmtRoundTrip(ss[0], more);
      StmtsRoundTrip(ss[1..], rest);
      StmtsStep(StmtToString(ss[0]) + more, ss[0], more, ss[1..], "}" + rest);
    }
  }

  /** A non-empty run of well-formed statements is its first statement and the rest. */
  lemma StmtsSplit(ss: seq<Stmt>, rest: string)
    requires |ss| > 0 && forall i :: 0 <= i < |ss| ==> WfStmt(ss[i])
    ensures StmtsToString(ss) + ("}" + rest) == StmtToString(ss[0]) + (StmtsToString(ss[1..]) + ("}" + rest))
    ensures WfStmt(ss[0]) && forall i :: 0 <= i < |ss[1..]| ==> WfStmt(ss[1..][i])
    ensures [ss[0]] + ss[1..] == ss
  {
  }

  // ---------------------------------------------------------------- procedures, programs

  lemma ProcedureStep(s: string, t: string, name: string, u: string, body: seq<Stmt>, rest: string)
    requires NextToken(s) == Ok((Token("procedure", Identifier), t))
    requires NextToken(t) == Ok((Token(name, Identifier), u))
    requires ParseStmtList(u) == Ok((body, rest))
    ensures ParseProcedure(s) == Ok((Procedure(name, body), rest))
  {
  }

  lemma ProcedureTextOf(name: string, list: string, rest: string)
    ensures "procedure " + name + list + rest == "procedure" + (" " + (name + (list + rest)))
  {
  }

  /** A printed procedure parses back as itself, whatever follows it. */
  lemma ProcedureRoundTrip(p: Procedure, rest: string)
    requires WfProcedure(p)
    ensures ParseProcedure(ProcedureToString(p) + rest) == Ok((p, rest))
    ensures PeekToken(ProcedureToString(p) + rest) == Ok(Token("procedure", Identifier))
  {
    var u := StmtListToString(p.body) + rest;
    ProcedureHeader(p, rest);
    assert WfStmtList(p.body);
    ListRoundTrip(p.body, rest);
    ProcedureStep(ProcedureToString(p) + rest, " " + (p.name + u), p.name, u, p.body, rest);
  }

  /** The keyword and the name of a printed procedure are its first two tokens. */
  lemma ProcedureHeader(p: Procedure, rest: string)
    requires WfProcedure(p)
    ensures var u := StmtListToString(p.body) + rest;
            NextToken(ProcedureToString(p) + rest) == Ok((Token("procedure", Identifier), " " + (p.name + u)))
            && PeekToken(ProcedureToString(p) + rest) == Ok(Token("procedure", Identifier))
            && NextToken(" " + (p.name + u)) == Ok((Token(p.name, Identifier), u))
  {
    var list := StmtListToString(p.body);
    var u := list + rest;
    ProcedureTextOf(p.name, list, rest);
    KeywordNames();
    LexName("procedure", " " + (p.name + u));
    LexAfterSpace(p.name + u);
    BracesText(StmtsToString(p.body), rest);
    LexName(p.name, u);
  }

  /** The printed procedures of a program parse back as those procedures. */
  lemma {:induction false} ProceduresRoundTrip(ps: seq<Procedure>)
    requires forall i :: 0 <= i < |ps| ==> WfProcedure(ps[i])
    ensures ParseProcedures(ProceduresToString(ps)) == Ok(ps)
  {
    if |ps| == 0 {
      ProceduresStep("");
      EndOfFileSpec("");
    } else {
      var more := ProceduresToString(ps[1..]);
      ProceduresSplit(ps);
      ProcedureRoundTrip(ps[0], more);
      ProceduresRoundTrip(ps[1..]);
      ProcedureThenMore(ProcedureToString(ps[0]) + more, ps[0], more, ps[1..]);
    }
  }

  /** A non-empty list of well-formed procedures is its first procedure and the rest. */
  lemma ProceduresSplit(ps: seq<Procedure>)
    requires |ps| > 0 && forall i :: 0 <= i < |ps| ==> WfProcedure(ps[i])
    ensures ProceduresToString(ps) == ProcedureToString(ps[0]) + ProceduresToString(ps[1..])
    ensures WfProcedure(ps[0]) && forall i :: 0 <= i < |ps[1..]| ==> WfProcedure(ps[1..][i])
    ensures [ps[0]] + ps[1..] == ps
  {
  }

  /** One round of parseProgram's loop over a procedure and the procedures after it. */
  lemma ProcedureThenMore(s: string, p: Procedure, more: string, ps: seq<Procedure>)
    requires PeekToken(s) == Ok(Token("procedure", Identifier))
    requires ParseProcedure(s) == Ok((p, more))
    requires ParseProcedures(more) == Ok(ps)
    ensures ParseProcedures(s) == Ok([p] + ps)
  {
    ProceduresStep(s);
  }

  /** parseProgram inverts the compact printer on well-formed programs. */
  lemma ProgramRoundTrip(p: Program)
    requires WfProgram(p)
    ensures ProgramOf(ParseProcedures(ProgramToString(p))) == Ok(p)
  {
    ProceduresRoundTrip(p.procedures);
  }

  /** Canonical text is a fixed point: printing what parseProgram makes of the compact text
   *  of a well-formed program gives that text back. */
  lemma PrintAfterParse(p: Program)
    requires WfProgram(p)
    ensures var r := ProgramOf(ParseProcedures(ProgramToString(p)));
            r.Ok? && ProgramToString(r.value) == ProgramToString(p)
  {
    ProgramRoundTrip(p);
  }
}
