/**
 * The query parser (pql/parser/parser.cpp): recursive descent over the character stream of a
 * ParserState, which every function here takes and returns what is left of. The loops of the
 * source (the declaration's name list, the tuple, the clauses after Select, the query itself)
 * are methods proved equal to the recursive functions that specify them.
 *
 * The parser is written against the token set of its own header, where a '"' is a token of
 * its own (DoubleQuotes) and there are no keyword or string tokens; Scan is that tokenizer:
 * the query lexer, except that a '"' is returned alone.
 */
module PqlParser {
  import opened Wrappers
  import SL = SimpleLexer
  import SP = SimpleParser
  import SimpleAst
  import Decimal
  import opened PqlLexer
  import opened PqlAst

  type Parse<T> = SP.Parse<T>

  /** ParserState::next, with the header's token set. */
  function Scan(s: string): (r: Result<(Token, string)>)
    ensures r.Ok? ==> |r.value.1| <= |s| && (r.value.0.kind != EndOfFile ==> |r.value.1| < |s|)
    ensures r.Ok? && r.value.0.kind == Number ==> |r.value.0.text| > 0 && Decimal.AllDigits(r.value.0.text)
  {
    var t := SL.SkipWs(s);
    if |t| > 0 && t[0] == '"' then Ok((Token("\"", DoubleQuotes), t[1..]))
    else
      SL.DigitRunSpec(t);
      NextToken(s)
  }

  /** ParserState::peek_one: the next token; nothing is consumed. */
  function Peek(s: string): (r: Result<Token>)
    ensures r.Ok? <==> Scan(s).Ok?
    ensures r.Ok? ==> r.value == Scan(s).value.0
  {
    var (tok, _) :- Scan(s);
    Ok(tok)
  }

  /** ParserState::peek_two: the next two tokens; nothing is consumed. */
  function PeekTwo(s: string): (r: Result<(Token, Token)>)
    ensures r.Ok? ==> Peek(s) == Ok(r.value.0)
    ensures r.Ok? ==> Peek(Scan(s).value.1) == Ok(r.value.1)
    ensures Peek(s).Err? ==> r.Err?
  {
    var (fst, rest) :- Scan(s);
    var (snd, _) :- Scan(rest);
    Ok((fst, snd))
  }

  /** `if(ps->next() != TT::X) throw`: the next token must be of type tt. */
  function Expect(tt: TokenType, s: string): (r: Result<string>)
    ensures r.Ok? <==> Scan(s).Ok? && Scan(s).value.0.kind == tt
    ensures r.Ok? ==> r.value == Scan(s).value.1
    ensures r.Ok? && tt != EndOfFile ==> |r.value| < |s|
  {
    var (tok, rest) :- Scan(s);
    if tok.kind != tt then Err("unexpected '" + tok.text + "'") else Ok(rest)
  }

  /** ParserState::assert_whitespace(0): the stream must not start with whitespace. */
  predicate LeadingSpace(s: string)
  {
    |s| > 0 && SL.IsWhitespace(s[0])
  }

  const SelectTok := Token("Select", Identifier)
  const BooleanTok := Token("BOOLEAN", Identifier)
  const PatternTok := Token("pattern", Identifier)
  const SuchTok := Token("such", Identifier)
  const ThatTok := Token("that", Identifier)

  // -------------------------------------------------------------- declarations

  /** KW_DesignEntities: the words a declaration may start with. */
  const DesignEntityKeywords: set<string> :=
    {"stmt", "assign", "variable", "constant", "procedure", "read", "print", "if", "then",
     "else", "call", "while"}

  /** "then" and "else" pass the keyword test but name no entity, and "prog_line" names an
   *  entity but fails the keyword test. */
  lemma KeywordWithoutEntity()
    ensures "then" in DesignEntityKeywords && "then" !in DesignEntMap
    ensures "else" in DesignEntityKeywords && "else" !in DesignEntMap
    ensures "prog_line" in DesignEntMap && "prog_line" !in DesignEntityKeywords
    ensures forall k :: k in DesignEntityKeywords && k !in DesignEntMap ==> k == "then" || k == "else"
  {
  }

  /** insert_var_to_declarations: the next token names a new synonym of entity ent. */
  function InsertVar(s: string, ent: DesignEnt, decls: map<string, Declaration>): (r: Parse<map<string, Declaration>>)
    ensures r.Ok? ==> |r.value.1| < |s|
    ensures r.Ok? ==> exists n :: n !in decls && r.value.0 == decls[n := Declaration(n, ent)]
  {
    var (name, rest) :- Scan(s);
    if name.kind != Identifier then Err("expected variable name to be an identifier")
    else if name.text in decls then Err("duplicate declaration '" + name.text + "'")
    else Ok((decls[name.text := Declaration(name.text, ent)], rest))
  }

  /** The loop of insert_declaration: `, name` while a comma follows, then ';'. */
  function MoreVars(s: string, ent: DesignEnt, decls: map<string, Declaration>): (r: Parse<map<string, Declaration>>)
    ensures r.Ok? ==> |r.value.1| < |s|
    decreases |s|
  {
    var tok :- Peek(s);
    if tok.kind == Comma then
      var s1 := Scan(s).value.1;
      var (d, s2) :- InsertVar(s1, ent, decls);
      MoreVars(s2, ent, d)
    else
      var s1 :- Expect(Semicolon, s);
      Ok((decls, s1))
  }

  /** insert_declaration: a design-entity keyword, one or more comma-separated new names, and
   *  ';'. A keyword with no entity ("then", "else") is an error here. */
  function ParseDeclaration(s: string, decls: map<string, Declaration>): (r: Parse<map<string, Declaration>>)
    ensures r.Ok? ==> |r.value.1| < |s|
  {
    var (entTok, s1) :- Scan(s);
    if !(entTok.kind == Identifier && entTok.text in DesignEntityKeywords) then
      Err("Expected declarations to start with design-entity keyword instead of " + entTok.text)
    else
      if entTok.text !in DesignEntMap then Err("Invalid entity provided in declaration " + entTok.text)
      else
        var (d, s2) :- InsertVar(s1, DesignEntMap[entTok.text], decls);
        MoreVars(s2, DesignEntMap[entTok.text], d)
  }

  /** Declarations are only ever added: what was declared stays, and every new name is a new
   *  declaration of that name with the one entity of the statement. */
  lemma {:induction false} MoreVarsAdds(s: string, ent: DesignEnt, decls: map<string, Declaration>)
    requires MoreVars(s, ent, decls).Ok?
    ensures var d := MoreVars(s, ent, decls).value.0;
            decls.Keys <= d.Keys
            && (forall n :: n in decls ==> d[n] == decls[n])
            && (forall n :: n in d && n !in decls ==> d[n] == Declaration(n, ent))
    decreases |s|
  {
    var tok := Peek(s).value;
    if tok.kind == Comma {
      var s1 := Expect(Comma, s).value;
      var (d, s2) := InsertVar(s1, ent, decls).value;
      InsertVarAdds(decls, d, ent);
      MoreVarsAdds(s2, ent, d);
      AddsCompose(decls, d, MoreVars(s2, ent, d).value.0, ent);
    }
  }

  lemma DeclarationAdds(s: string, decls: map<string, Declaration>)
    requires ParseDeclaration(s, decls).Ok?
    ensures var d := ParseDeclaration(s, decls).value.0;
            exists e :: e != InvalidEnt && DesignEntName(e) in DesignEntityKeywords
              && decls.Keys < d.Keys
              && (forall n :: n in decls ==> d[n] == decls[n])
              && (forall n :: n in d && n !in decls ==> d[n] == Declaration(n, e))
  {
    var e, d, s2 := DeclarationStep(s, decls);
    InsertVarAdds(decls, d, e);
    MoreVarsAdds(s2, e, d);
    AddsCompose(decls, d, MoreVars(s2, e, d).value.0, e);
  }

  /** ParseDeclaration unfolded: the entity of its keyword, the map after its first name and
   *  the stream after that name. */
  lemma DeclarationStep(s: string, decls: map<string, Declaration>)
    returns (e: DesignEnt, d: map<string, Declaration>, s2: string)
    requires ParseDeclaration(s, decls).Ok?
    ensures e != InvalidEnt && DesignEntName(e) in DesignEntityKeywords
    ensures exists n :: n !in decls && d == decls[n := Declaration(n, e)]
    ensures ParseDeclaration(s, decls) == MoreVars(s2, e, d)
  {
    var (entTok, s1) := Scan(s).value;
    e := DesignEntMap[entTok.text];
    EntityOfKeyword(entTok.text);
    d, s2 := InsertVar(s1, e, decls).value.0, InsertVar(s1, e, decls).value.1;
  }

  /** Two rounds of adding declarations of one entity add declarations of that entity. */
  lemma AddsCompose(decls: map<string, Declaration>, d: map<string, Declaration>,
                    r: map<string, Declaration>, e: DesignEnt)
    requires decls.Keys < d.Keys && (forall n :: n in decls ==> d[n] == decls[n])
    requires forall n :: n in d && n !in decls ==> d[n] == Declaration(n, e)
    requires d.Keys <= r.Keys && (forall n :: n in d ==> r[n] == d[n])
    requires forall n :: n in r && n !in d ==> r[n] == Declaration(n, e)
    ensures decls.Keys < r.Keys && (forall n :: n in decls ==> r[n] == decls[n])
    ensures forall n :: n in r && n !in decls ==> r[n] == Declaration(n, e)
  {
  }

  /** Adding one new name keeps every old declaration. */
  lemma InsertVarAdds(decls: map<string, Declaration>, d: map<string, Declaration>, e: DesignEnt)
    requires exists n :: n !in decls && d == decls[n := Declaration(n, e)]
    ensures decls.Keys < d.Keys
    ensures forall n :: n in decls ==> d[n] == decls[n]
    ensures forall n :: n in d && n !in decls ==> d[n] == Declaration(n, e)
  {
    var n :| n !in decls && d == decls[n := Declaration(n, e)];
    assert n in d && n !in decls;
  }

  lemma EntityOfKeyword(k: string)
    requires k in DesignEntMap
    ensures DesignEntMap[k] != InvalidEnt && DesignEntName(DesignEntMap[k]) == k
  {
    DesignEntMapsInverse();
  }

  /** Declaring a name that is already declared fails with "duplicate declaration". */
  lemma DuplicateDeclaration(x: string, rest: string, ent: DesignEnt, decls: map<string, Declaration>)
    requires SL.IsName(x) && x in decls
    requires |rest| == 0 || !SL.IsAlnum(rest[0])
    ensures InsertVar(x + rest, ent, decls).Err?
  {
    LexName(x, rest);
    assert SL.SkipWs(x + rest)[0] == x[0];
  }

  /** What a parse leaves of the stream, or its error. */
  function Rest<T>(p: Parse<T>): (r: Result<string>)
    ensures r.Ok? <==> p.Ok?
    ensures r.Ok? ==> r.value == p.value.1
    ensures r.Err? ==> r.msg == p.msg
  {
    match p
    case Ok((_, rest)) => Ok(rest)
    case Err(m) => Err(m)
  }

  /** insert_declaration, with its loop over the comma-separated names. */
  method InsertDeclaration(s: string, list: DeclarationList) returns (r: Result<string>)
    requires list.Valid()
    modifies list
    ensures list.Valid()
    ensures r == Rest(ParseDeclaration(s, old(list.declarations)))
    ensures r.Ok? ==> list.declarations == ParseDeclaration(s, old(list.declarations)).value.0
  {
    var tok := Scan(s);
    if tok.Err? {
      return Err(tok.msg);
    }
    if !(tok.value.0.kind == Identifier && tok.value.0.text in DesignEntityKeywords) {
      return Err("Expected declarations to start with design-entity keyword instead of " + tok.value.0.text);
    }
    var entString := tok.value.0.text;
    if entString !in DesignEntMap {
      return Err("Invalid entity provided in declaration " + entString);
    }
    var ent := DesignEntMap[entString];
    var stream := InsertVarTo(tok.value.1, list, ent);
    if stream.Err? {
      return stream;
    }
    r := InsertMoreVars(stream.value, list, ent);
  }

  /** The loop of insert_declaration: `, name` while a comma follows, then ';'. */
  method InsertMoreVars(s: string, list: DeclarationList, ent: DesignEnt) returns (r: Result<string>)
    requires list.Valid()
    modifies list
    ensures list.Valid()
    ensures r == Rest(MoreVars(s, ent, old(list.declarations)))
    ensures r.Ok? ==> list.declarations == MoreVars(s, ent, old(list.declarations)).value.0
  {
    var loopStream := s;
    while true
      invariant list.Valid()
      invariant MoreVars(s, ent, old(list.declarations)) == MoreVars(loopStream, ent, list.declarations)
      decreases |loopStream|
    {
      var next := Peek(loopStream);
      if next.Err? {
        return Err(next.msg);
      }
      if next.value.kind != Comma {
        break;
      }
      var afterComma := Expect(Comma, loopStream);
      var more := InsertVarTo(afterComma.value, list, ent);
      if more.Err? {
        return more;
      }
      loopStream := more.value;
    }
    r := Expect(Semicolon, loopStream);
  }

  method InsertVarTo(s: string, list: DeclarationList, ent: DesignEnt) returns (r: Result<string>)
    requires list.Valid()
    modifies list
    ensures list.Valid()
    ensures r == Rest(InsertVar(s, ent, old(list.declarations)))
    ensures r.Ok? ==> list.declarations == InsertVar(s, ent, old(list.declarations)).value.0
  {
    var name := Scan(s);
    if name.Err? {
      return Err(name.msg);
    }
    if name.value.0.kind != Identifier {
      return Err("expected variable name to be an identifier");
    }
    if list.HasDeclaration(name.value.0.text) {
      return Err("duplicate declaration '" + name.value.0.text + "'");
    }
    var _ := list.AddDeclaration(name.value.0.text, ent);
    r := Ok(name.value.1);
  }

  // ---------------------------------------------------------------- references

  /** parse_ent_ref: '_', a quoted name, or a declared synonym. */
  function ParseEntRef(s: string, decls: map<string, Declaration>): (r: Parse<EntRef>)
    ensures r.Ok? ==> |r.value.1| < |s|
    ensures r.Ok? ==> !r.value.0.EntInvalid?
    ensures r.Ok? && r.value.0.EntDecl? ==> r.value.0.decl in decls.Values
  {
    var (tok, s1) :- Scan(s);
    if tok.kind == Underscore then Ok((EntWildcard, s1))
    else if tok.kind == DoubleQuotes then
      var (name, s2) :- Scan(s1);
      if name.kind != Identifier then Err("Expected named declaration to be an identifier")
      else
        var s3 :- Expect(DoubleQuotes, s2);
        Ok((EntName(name.text), s3))
    else if tok.kind == Identifier then
      if tok.text !in decls then Err("Undeclared entity " + tok.text + " provided when parsing ent ref")
      else Ok((EntDecl(decls[tok.text]), s1))
    else Err("Invalid ent ref starting with " + tok.text)
  }

  /** parse_stmt_ref: '_', a statement number read as decimal, or a declared synonym. */
  function ParseStmtRef(s: string, decls: map<string, Declaration>): (r: Parse<StmtRef>)
    ensures r.Ok? ==> |r.value.1| < |s|
    ensures r.Ok? ==> !r.value.0.StmtInvalid?
    ensures r.Ok? <==> Scan(s).Ok? && (Scan(s).value.0.kind in {Underscore, Number}
                       || (Scan(s).value.0.kind == Identifier && Scan(s).value.0.text in decls))
  {
    var (tok, s1) :- Scan(s);
    if tok.kind == Underscore then Ok((StmtWildcard, s1))
    else if tok.kind == Number then Ok((StmtId(Decimal.DigitsValue(tok.text)), s1))
    else if tok.kind == Identifier then
      if tok.text !in decls then Err("Undeclared entity " + tok.text + " provided when parsing stmt ref")
      else Ok((StmtDecl(decls[tok.text]), s1))
    else Err("Invalid stmt ref starting with " + tok.text)
  }

  /** A statement number written in decimal, leading zeros or not, is read as its value. */
  lemma StmtRefOfNumber(x: string, rest: string, decls: map<string, Declaration>)
    requires |x| > 0 && Decimal.AllDigits(x)
    requires |rest| == 0 || !SL.IsDigit(rest[0])
    ensures ParseStmtRef(x + rest, decls) == Ok((StmtId(Decimal.DigitsValue(x)), rest))
  {
    LexDigits(x, rest);
    assert SL.SkipWs(x + rest)[0] == x[0];
  }

  /** The text of n reads back as statement n. */
  lemma StmtRefOfText(n: nat, rest: string, decls: map<string, Declaration>)
    requires |rest| == 0 || !SL.IsDigit(rest[0])
    ensures ParseStmtRef(Decimal.NatText(n) + rest, decls) == Ok((StmtId(n), rest))
  {
    StmtRefOfNumber(Decimal.NatText(n), rest, decls);
    Decimal.ValueOfText(n);
  }

  /** An opening '"' is one DoubleQuotes token. */
  lemma ScanQuote(rest: string)
    ensures Scan("\"" + rest) == Ok((Token("\"", DoubleQuotes), rest))
  {
    var s := "\"" + rest;
    assert SL.SkipWs(s) == s;
    assert s[1..] == rest;
  }

  /** A name followed by a character that cannot continue it is one Identifier token. */
  lemma ScanName(x: string, rest: string)
    requires SL.IsName(x)
    requires |rest| == 0 || !SL.IsAlnum(rest[0])
    ensures Scan(x + rest) == Ok((Token(x, Identifier), rest))
  {
    LexName(x, rest);
    assert SL.SkipWs(x + rest)[0] == x[0];
  }

  /** One round of the quoted branch of parse_ent_ref. */
  lemma QuotedEntStep(s: string, s1: string, x: string, s2: string, s3: string,
                      decls: map<string, Declaration>)
    requires Scan(s) == Ok((Token("\"", DoubleQuotes), s1))
    requires Scan(s1) == Ok((Token(x, Identifier), s2))
    requires Scan(s2) == Ok((Token("\"", DoubleQuotes), s3))
    ensures ParseEntRef(s, decls) == Ok((EntName(x), s3))
  {
  }

  /** A quoted name is an entity name. */
  lemma EntRefOfName(x: string, rest: string, decls: map<string, Declaration>)
    requires SL.IsName(x)
    ensures ParseEntRef("\"" + x + "\"" + rest, decls) == Ok((EntName(x), rest))
  {
    assert "\"" + x + "\"" + rest == "\"" + (x + ("\"" + rest));
    ScanQuote(x + ("\"" + rest));
    ScanName(x, "\"" + rest);
    ScanQuote(rest);
    QuotedEntStep("\"" + (x + ("\"" + rest)), x + ("\"" + rest), x, "\"" + rest, rest, decls);
  }

  // ------------------------------------------------------------ expression spec

  /** extractTillQuotes: the text up to the next '"', which stays in the stream. Its body is
   *  not part of this model; with no '"' left the whole stream is taken. */
  function ExtractTillQuotes(s: string): (r: (string, string))
    ensures r.0 + r.1 == s
    ensures forall j :: 0 <= j < |r.0| ==> r.0[j] != '"'
    ensures |r.1| == 0 || r.1[0] == '"'
  {
    match QuoteIndex(s)
    case None => (s, "")
    case Some(n) => (s[..n], s[n..])
  }

  /** parse_expr: a SIMPLE expression between quotes. */
  function ParseExpr(s: string): (r: Parse<SimpleAst.Expr>)
    ensures r.Ok? ==> |r.value.1| < |s|
  {
    var s1 :- Expect(DoubleQuotes, s);
    var (text, s2) := ExtractTillQuotes(s1);
    var s3 :- Expect(DoubleQuotes, s2);
    var e :- SP.ParseExpression(text);
    Ok((e, s3))
  }

  /** parse_expr_spec: an optional '_', an optional quoted expression, and a closing '_' when
   *  both are there. */
  function ParseExprSpec(s: string): (r: Parse<ExprSpec>)
    ensures r.Ok? ==> |r.value.1| <= |s|
  {
    var t1 :- Peek(s);
    var s1 := if t1.kind == Underscore then Scan(s).value.1 else s;
    var t2 :- Peek(s1);
    var (expr, s2) :- if t2.kind == DoubleQuotes then (var (e, rest) :- ParseExpr(s1); Ok((Some(e), rest)))
                      else Ok((None, s1));
    var isSubexpr := t1.kind == Underscore;
    if isSubexpr && expr.Some? then
      var s3 :- Expect(Underscore, s2);
      Ok((ExprSpec(true, expr), s3))
    else Ok((ExprSpec(isSubexpr, expr), s2))
  }

  lemma ScanPunctuation(c: char, rest: string)
    requires Punctuation(c).Some?
    ensures Scan([c] + rest) == Ok((Token([c], Punctuation(c).value), rest))
  {
    assert SL.SkipWs([c] + rest) == [c] + rest;
    LexPunctuation(c, rest);
  }

  /** A '_' on its own is a valid expression spec, matching any right-hand side. */
  lemma BareWildcard(rest: string)
    requires Peek(rest).Ok? && Peek(rest).value.kind != DoubleQuotes
    ensures ParseExprSpec("_" + rest) == Ok((ExprSpec(true, None), rest))
  {
    ScanPunctuation('_', rest);
    assert ['_'] + rest == "_" + rest;
  }

  /** After '_' and a quoted expression, a closing '_' is required. */
  lemma SubexprNeedsClosing(s1: string, e: SimpleAst.Expr, s2: string)
    requires ParseExpr(s1) == Ok((e, s2))
    requires Peek(s2).Ok? && Peek(s2).value.kind != Underscore
    ensures ParseExprSpec("_" + s1).Err?
  {
    ScanUnderscore(s1);
    OpenSubexprStep("_" + s1, s1, e, s2);
  }

  lemma ScanUnderscore(rest: string)
    ensures Scan("_" + rest) == Ok((Token("_", Underscore), rest))
  {
    ScanPunctuation('_', rest);
  }

  /** After '_', an expression not followed by '_' leaves the spec unclosed. */
  lemma OpenSubexprStep(s: string, s1: string, e: SimpleAst.Expr, s2: string)
    requires Scan(s) == Ok((Token("_", Underscore), s1))
    requires ParseExpr(s1) == Ok((e, s2))
    requires Peek(s2).Ok? && Peek(s2).value.kind != Underscore
    ensures ParseExprSpec(s).Err?
  {
    assert Peek(s1).Ok? && Peek(s1).value.kind == DoubleQuotes;
  }

  /** With neither '_' nor a quote, the spec is empty and nothing is consumed. */
  lemma EmptyExprSpec(s: string)
    requires Peek(s).Ok? && Peek(s).value.kind !in {Underscore, DoubleQuotes}
    ensures ParseExprSpec(s) == Ok((ExprSpec(false, None), s))
  {
  }

  // ------------------------------------------------------------------ patterns

  /** The synonym argument of a pattern, which must be a variable if it is a synonym. */
  function PatternEnt(s: string, decls: map<string, Declaration>): (r: Parse<EntRef>)
    ensures r.Ok? ==> |r.value.1| < |s|
    ensures r.Ok? && r.value.0.EntDecl? ==> r.value.0.decl.designEnt == VariableEnt
  {
    var s1 :- Expect(LParen, s);
    var (ent, s2) :- ParseEntRef(s1, decls);
    if ent.EntDecl? && ent.decl.designEnt != VariableEnt then
      Err("synonym in first argument of pattern must be a variable")
    else
      var s3 :- Expect(Comma, s2);
      Ok((ent, s3))
  }

  /** parse_assign_pattern: (entRef, exprSpec) */
  function ParseAssignPattern(s: string, decl: Declaration, decls: map<string, Declaration>): (r: Parse<PatternCond>)
    ensures r.Ok? ==> |r.value.1| < |s|
    ensures r.Ok? ==> r.value.0.AssignPattern? && r.value.0.assignDecl == decl
  {
    var (ent, s1) :- PatternEnt(s, decls);
    var (spec, s2) :- ParseExprSpec(s1);
    var s3 :- Expect(RParen, s2);
    Ok((AssignPattern(decl, ent, spec), s3))
  }

  /** parse_if_pattern: (entRef, _, _) */
  function ParseIfPattern(s: string, decl: Declaration, decls: map<string, Declaration>): (r: Parse<PatternCond>)
    ensures r.Ok? ==> |r.value.1| < |s|
    ensures r.Ok? ==> r.value.0.IfPattern? && r.value.0.ifDecl == decl
  {
    var (ent, s1) :- PatternEnt(s, decls);
    var s2 :- Expect(Underscore, s1);
    var s3 :- Expect(Comma, s2);
    var s4 :- Expect(Underscore, s3);
    var s5 :- Expect(RParen, s4);
    Ok((IfPattern(decl, ent), s5))
  }

  /** parse_while_pattern: (entRef, _) */
  function ParseWhilePattern(s: string, decl: Declaration, decls: map<string, Declaration>): (r: Parse<PatternCond>)
    ensures r.Ok? ==> |r.value.1| < |s|
    ensures r.Ok? ==> r.value.0.WhilePattern? && r.value.0.whileDecl == decl
  {
    var (ent, s1) :- PatternEnt(s, decls);
    var s2 :- Expect(Underscore, s1);
    var s3 :- Expect(RParen, s2);
    Ok((WhilePattern(decl, ent), s3))
  }

  /** parse_pattern: `pattern` and a declared assign, if or while synonym with its arguments. */
  function ParsePattern(s: string, decls: map<string, Declaration>): (r: Parse<PatternCl>)
    ensures r.Ok? ==> |r.value.1| < |s|
    ensures r.Ok? ==> |r.value.0.conds| == 1
    ensures r.Ok? ==> match r.value.0.conds[0]
                      case AssignPattern(d, _, _) => d.designEnt == AssignEnt && d in decls.Values
                      case IfPattern(d, _) => d.designEnt == IfEnt && d in decls.Values
                      case WhilePattern(d, _) => d.designEnt == WhileEnt && d in decls.Values
  {
    var (kw, s1) :- Scan(s);
    if kw != PatternTok then Err("Pattern clauses needs to start with 'pattern' keyword")
    else
      var (declTok, s2) :- Scan(s1);
      if declTok.text !in decls then Err("Pattern condition should start with the synonym of a previous declaration")
      else
        var decl := decls[declTok.text];
        var (cond, s3) :- PatternArgs(s2, decl, decls);
        Ok((PatternCl([cond]), s3))
  }

  /** The arguments of a pattern, read by the synonym's kind. */
  function PatternArgs(s: string, decl: Declaration, decls: map<string, Declaration>): (r: Parse<PatternCond>)
    ensures r.Ok? ==> |r.value.1| < |s|
    ensures r.Ok? ==> match r.value.0
                      case AssignPattern(d, _, _) => d == decl && d.designEnt == AssignEnt
                      case IfPattern(d, _) => d == decl && d.designEnt == IfEnt
                      case WhilePattern(d, _) => d == decl && d.designEnt == WhileEnt
  {
    if decl.designEnt == AssignEnt then ParseAssignPattern(s, decl, decls)
    else if decl.designEnt == IfEnt then ParseIfPattern(s, decl, decls)
    else if decl.designEnt == WhileEnt then ParseWhilePattern(s, decl, decls)
    else Err("pattern clause can only have 'assign', 'if', or 'while' synonyms")
  }

  // ------------------------------------------------------------------ relations

  /** stmtRef ',' stmtRef ')' */
  function StmtStmtArgs(s: string, decls: map<string, Declaration>): (r: Parse<(StmtRef, StmtRef)>)
    ensures r.Ok? ==> |r.value.1| < |s|
    ensures r.Ok? ==> !r.value.0.0.StmtInvalid? && !r.value.0.1.StmtInvalid?
  {
    var (a, s1) :- ParseStmtRef(s, decls);
    var s2 :- Expect(Comma, s1);
    var (b, s3) :- ParseStmtRef(s2, decls);
    var s4 :- Expect(RParen, s3);
    Ok(((a, b), s4))
  }

  /** entRef ',' entRef ')' */
  function EntEntArgs(s: string, decls: map<string, Declaration>): (r: Parse<(EntRef, EntRef)>)
    ensures r.Ok? ==> |r.value.1| < |s|
    ensures r.Ok? ==> !r.value.0.0.EntInvalid? && !r.value.0.1.EntInvalid?
  {
    var (a, s1) :- ParseEntRef(s, decls);
    var s2 :- Expect(Comma, s1);
    var (b, s3) :- ParseEntRef(s2, decls);
    var s4 :- Expect(RParen, s3);
    Ok(((a, b), s4))
  }

  /** stmtRef ',' entRef ')' */
  function StmtEntArgs(s: string, decls: map<string, Declaration>): (r: Parse<(StmtRef, EntRef)>)
    ensures r.Ok? ==> |r.value.1| < |s|
    ensures r.Ok? ==> !r.value.0.0.StmtInvalid? && !r.value.0.1.EntInvalid?
  {
    var (a, s1) :- ParseStmtRef(s, decls);
    var s2 :- Expect(Comma, s1);
    var (b, s3) :- ParseEntRef(s2, decls);
    var s4 :- Expect(RParen, s3);
    Ok(((a, b), s4))
  }

  /** A ',' directly at the front is the token expected between two arguments. */
  lemma ExpectComma(rest: string)
    ensures Expect(Comma, [','] + rest) == Ok(rest)
  {
    ScanPunctuation(',', rest);
  }

  /** A ')' directly at the front is the token that closes the arguments. */
  lemma ExpectRParen(rest: string)
    ensures Expect(RParen, [')'] + rest) == Ok(rest)
  {
    ScanPunctuation(')', rest);
  }

  /** One round of stmtRef ',' stmtRef ')'. */
  lemma StmtStmtStep(s: string, s1: string, s2: string, s3: string, s4: string, a: StmtRef, b: StmtRef,
                     decls: map<string, Declaration>)
    requires ParseStmtRef(s, decls) == Ok((a, s1)) && Expect(Comma, s1) == Ok(s2)
    requires ParseStmtRef(s2, decls) == Ok((b, s3)) && Expect(RParen, s3) == Ok(s4)
    ensures StmtStmtArgs(s, decls) == Ok(((a, b), s4))
  {
  }

  /** One round of entRef ',' entRef ')'. */
  lemma EntEntStep(s: string, s1: string, s2: string, s3: string, s4: string, a: EntRef, b: EntRef,
                   decls: map<string, Declaration>)
    requires ParseEntRef(s, decls) == Ok((a, s1)) && Expect(Comma, s1) == Ok(s2)
    requires ParseEntRef(s2, decls) == Ok((b, s3)) && Expect(RParen, s3) == Ok(s4)
    ensures EntEntArgs(s, decls) == Ok(((a, b), s4))
  {
  }

  /** One round of stmtRef ',' entRef ')'. */
  lemma StmtEntStep(s: string, s1: string, s2: string, s3: string, s4: string, a: StmtRef, b: EntRef,
                    decls: map<string, Declaration>)
    requires ParseStmtRef(s, decls) == Ok((a, s1)) && Expect(Comma, s1) == Ok(s2)
    requires ParseEntRef(s2, decls) == Ok((b, s3)) && Expect(RParen, s3) == Ok(s4)
    ensures StmtEntArgs(s, decls) == Ok(((a, b), s4))
  {
  }

  /** Two statement numbers, a ',' between them and the closing ')' read back as those
   *  statements. */
  lemma StmtStmtArgsOfNumbers(m: nat, n: nat, rest: string, decls: map<string, Declaration>)
    ensures StmtStmtArgs(Decimal.NatText(m) + ("," + (Decimal.NatText(n) + (")" + rest))), decls)
         == Ok(((StmtId(m), StmtId(n)), rest))
  {
    var close := [')'] + rest;
    var tail := Decimal.NatText(n) + close;
    var s := Decimal.NatText(m) + ([','] + tail);
    StmtRefOfText(m, [','] + tail, decls);
    ExpectComma(tail);
    StmtRefOfText(n, close, decls);
    ExpectRParen(rest);
    StmtStmtStep(s, [','] + tail, tail, close, rest, StmtId(m), StmtId(n), decls);
  }

  /** Two quoted names, a ',' between them and the closing ')' read back as those names. */
  lemma EntEntArgsOfNames(x: string, y: string, rest: string, decls: map<string, Declaration>)
    requires SL.IsName(x) && SL.IsName(y)
    ensures EntEntArgs("\"" + x + "\"" + ("," + ("\"" + y + "\"" + (")" + rest))), decls)
         == Ok(((EntName(x), EntName(y)), rest))
  {
    var close := [')'] + rest;
    var tail := "\"" + y + "\"" + close;
    var s := "\"" + x + "\"" + ([','] + tail);
    EntRefOfName(x, [','] + tail, decls);
    ExpectComma(tail);
    EntRefOfName(y, close, decls);
    ExpectRParen(rest);
    EntEntStep(s, [','] + tail, tail, close, rest, EntName(x), EntName(y), decls);
  }

  /** A statement number and a quoted name, a ',' between them and the closing ')' read back
   *  as that statement and that name. */
  lemma StmtEntArgsOfNumberName(n: nat, y: string, rest: string, decls: map<string, Declaration>)
    requires SL.IsName(y)
    ensures StmtEntArgs(Decimal.NatText(n) + ("," + ("\"" + y + "\"" + (")" + rest))), decls)
         == Ok(((StmtId(n), EntName(y)), rest))
  {
    var close := [')'] + rest;
    var tail := "\"" + y + "\"" + close;
    var s := Decimal.NatText(n) + ([','] + tail);
    StmtRefOfText(n, [','] + tail, decls);
    ExpectComma(tail);
    EntRefOfName(y, close, decls);
    ExpectRParen(rest);
    StmtEntStep(s, [','] + tail, tail, close, rest, StmtId(n), EntName(y), decls);
  }

  /** The name of a starred relation, with the '*' directly after it, and the '('. */
  function StarredName(kw: string, s: string): (r: Result<string>)
    ensures r.Ok? ==> |r.value| < |s|
  {
    var (name, s1) :- Scan(s);
    var (star, s2) :- Scan(s1);
    if name.text != kw || star.kind != Asterisk || !StartsWith(SL.SkipWs(s), kw + "*") then
      Err(kw + "* relationship condition should start with '" + kw + "*'")
    else Expect(LParen, s2)
  }

  /** The name of a plain relation and the '('. */
  function PlainName(kw: string, s: string): (r: Result<string>)
    ensures r.Ok? ==> |r.value| < |s|
  {
    var (name, s1) :- Scan(s);
    if name.text != kw then Err(kw + " relationship condition should start with '" + kw + "'")
    else Expect(LParen, s1)
  }

  /** is_next_stmt_ref: a number, '_', or a synonym of a statement entity starts a statement
   *  reference; a '"' starts an entity reference. */
  function IsNextStmtRef(s: string, decls: map<string, Declaration>): (r: Result<bool>)
    ensures r.Ok? <==> Peek(s).Ok? && var tok := Peek(s).value;
              tok.kind in {Number, Underscore, DoubleQuotes} || (tok.kind == Identifier && tok.text in decls)
    ensures r == Ok(true) <==> Peek(s).Ok? && var tok := Peek(s).value;
              tok.kind in {Number, Underscore} || (tok.kind == Identifier && tok.text in decls && IsStmtEnt(decls[tok.text].designEnt))
  {
    var tok :- Peek(s);
    if tok.kind == Number || tok.kind == Underscore then Ok(true)
    else if tok.kind == DoubleQuotes then Ok(false)
    else if tok.kind != Identifier then Err("StmtRef,EntRef should start with number, underscore, '\"' or identifier")
    else if tok.text !in decls then Err(tok.text + " was not previously declared")
    else Ok(IsStmtEnt(decls[tok.text].designEnt))
  }

  /** parse_uses and parse_modifies: the statement form when the first argument is a
   *  statement reference, the procedure form otherwise. */
  function ParseUsesModifies(kw: string, s: string, decls: map<string, Declaration>): (r: Parse<RelCond>)
    requires kw == "Uses" || kw == "Modifies"
    ensures r.Ok? ==> |r.value.1| < |s|
    ensures r.Ok? ==> if kw == "Uses" then r.value.0.UsesS? || r.value.0.UsesP?
                      else r.value.0.ModifiesS? || r.value.0.ModifiesP?
  {
    var s1 :- PlainName(kw, s);
    var isStmt :- IsNextStmtRef(s1, decls);
    if isStmt then
      var ((a, b), s2) :- StmtEntArgs(s1, decls);
      Ok((if kw == "Uses" then UsesS(a, b) else ModifiesS(a, b), s2))
    else
      var ((a, b), s2) :- EntEntArgs(s1, decls);
      Ok((if kw == "Uses" then UsesP(a, b) else ModifiesP(a, b), s2))
  }

  /** parse_rel_cond: the starred relations are recognised by their two tokens first. */
  function ParseRelCond(s: string, decls: map<string, Declaration>): (r: Parse<RelCond>)
    ensures r.Ok? ==> |r.value.1| < |s|
  {
    var (t0, t1) :- PeekTwo(s);
    var star := Token("*", Asterisk);
    if t0 == Token("Follows", Identifier) && t1 == star then
      var s1 :- StarredName("Follows", s);
      var ((a, b), s2) :- StmtStmtArgs(s1, decls);
      Ok((FollowsT(a, b), s2))
    else if t0 == Token("Parent", Identifier) && t1 == star then
      var s1 :- StarredName("Parent", s);
      var ((a, b), s2) :- StmtStmtArgs(s1, decls);
      Ok((ParentT(a, b), s2))
    else if t0 == Token("Calls", Identifier) && t1 == star then
      var s1 :- StarredName("Calls", s);
      var ((a, b), s2) :- EntEntArgs(s1, decls);
      Ok((CallsT(a, b), s2))
    else if t0 == Token("Follows", Identifier) then
      var s1 :- PlainName("Follows", s);
      var ((a, b), s2) :- StmtStmtArgs(s1, decls);
      Ok((Follows(a, b), s2))
    else if t0 == Token("Parent", Identifier) then
      var s1 :- PlainName("Parent", s);
      var ((a, b), s2) :- StmtStmtArgs(s1, decls);
      Ok((Parent(a, b), s2))
    else if t0 == Token("Uses", Identifier) then ParseUsesModifies("Uses", s, decls)
    else if t0 == Token("Modifies", Identifier) then ParseUsesModifies("Modifies", s, decls)
    else if t0 == Token("Calls", Identifier) then
      var s1 :- PlainName("Calls", s);
      var ((a, b), s2) :- EntEntArgs(s1, decls);
      Ok((Calls(a, b), s2))
    else Err("Invalid relationship condition tokens: " + t0.text + ", " + t1.text)
  }

  /** parse_such_that: "such that", with exactly one space, and one relation. */
  function ParseSuchThat(s: string, decls: map<string, Declaration>): (r: Parse<SuchThatCl>)
    ensures r.Ok? ==> |r.value.1| < |s|
    ensures r.Ok? ==> |r.value.0.relConds| == 1
  {
    var (such, s1) :- Scan(s);
    var (that, s2) :- Scan(s1);
    if such.text != "such" || that.text != "that" || !StartsWith(SL.SkipWs(s), "such that") then
      Err("Such That clause should start with 'such that'")
    else
      var (rel, s3) :- ParseRelCond(s2, decls);
      Ok((SuchThatCl([rel]), s3))
  }

  /** Two spaces, or any other blank, between "such" and "that" are rejected. */
  lemma SuchThatSpacing(gap: string, rest: string, decls: map<string, Declaration>)
    requires |gap| > 0 && forall i :: 0 <= i < |gap| ==> SL.IsWhitespace(gap[i])
    requires gap != " "
    ensures ParseSuchThat("such" + gap + "that" + rest, decls).Err?
  {
    var s := "such" + gap + "that" + rest;
    assert SL.SkipWs(s) == s;
    if |gap| == 1 {
      assert gap == [gap[0]];
      assert s[..9][4] == s[4] == gap[0] != ' ';
    } else {
      assert s[..9][5] == s[5] == gap[1] != 't';
    }
    assert !StartsWith(s, "such that");
  }

  /** A blank between "Follows" (or "Parent", "Calls") and its '*' is rejected. */
  lemma StarSpacing(kw: string, gap: string, rest: string)
    requires |kw| > 0 && !SL.IsWhitespace(kw[0])
    requires |gap| > 0 && SL.IsWhitespace(gap[0])
    ensures StarredName(kw, kw + gap + "*" + rest).Err?
  {
    var s := kw + gap + "*" + rest;
    assert s[0] == kw[0];
    assert SL.SkipWs(s) == s;
    assert s[..|kw| + 1][|kw|] == s[|kw|] == gap[0];
    assert !StartsWith(s, kw + "*");
  }

  // ------------------------------------------------------------------ elements

  /** parse_elem: a declared synonym, or `synonym.attrName` written without blanks, where
   *  `stmt#` is read as two tokens. */
  function ParseElem(s: string, decls: map<string, Declaration>): (r: Parse<Elem>)
    ensures r.Ok? ==> |r.value.1| < |s|
    ensures r.Ok? ==> match r.value.0
                      case ElemDecl(d) => d in decls.Values
                      case ElemAttr(a) => a.decl in decls.Values && a.attrName != InvalidAttr
  {
    var (declTok, s1) :- Scan(s);
    if declTok.kind != Identifier then Err("Expected identifier as the first token of an Element")
    else if declTok.text !in decls then Err("Undeclared entity " + declTok.text + " provided.")
    else
      var decl := decls[declTok.text];
      var dot :- Peek(s1);
      if dot.kind != Dot then Ok((ElemDecl(decl), s1))
      else if LeadingSpace(s1) then Err("should not have any whitespace between decl and dot")
      else
        var s2 := Scan(s1).value.1;
        if LeadingSpace(s2) then Err("should not have any whitespace between dot and attrName")
        else
          var (a0, a1) :- PeekTwo(s2);
          if a0.kind != Identifier then Err("Expected first token after '.' to be a identifier.")
          else
            var (name, s3) :- AttrNameText(s2, a1.kind == HashTag);
            if name !in AttrNameMap then Err("Invalid attrName: " + name)
            else
              AttrNameMapsInverse();
              Ok((ElemAttr(AttrRef(decl, AttrNameMap[name])), s3))
  }

  /** The attribute name after the dot: `stmt#` as two tokens with nothing between, or one
   *  identifier. */
  function AttrNameText(s: string, hash: bool): (r: Parse<string>)
    ensures r.Ok? ==> |r.value.1| < |s|
  {
    var (word, s1) :- Scan(s);
    if hash then
      if LeadingSpace(s1) then Err("should not have any whitespace between the 'stmt' and '#'")
      else
        var (hashTag, s2) :- Scan(s1);
        if word.text != "stmt" || hashTag.kind != HashTag then Err("Invalid attribute name expected 'stmt#' instead.")
        else Ok(("stmt#", s2))
    else if word.kind == EndOfFile then Err("Expected an attribute name")
    else Ok((word.text, s1))
  }

  /** A blank between a synonym and its dot is rejected. */
  lemma BlankBeforeDot(x: string, gap: string, rest: string, decls: map<string, Declaration>)
    requires SL.IsName(x) && x in decls
    requires |gap| > 0 && SL.IsWhitespace(gap[0])
    requires Peek(gap + "." + rest).Ok? && Peek(gap + "." + rest).value.kind == Dot
    ensures ParseElem(x + gap + "." + rest, decls).Err?
  {
    assert x + gap + "." + rest == x + (gap + "." + rest);
    LexName(x, gap + "." + rest);
    assert SL.SkipWs(x + (gap + "." + rest))[0] == x[0];
  }

  // ---------------------------------------------------------------- the tuple

  /** Every element names a declared synonym. */
  predicate ElemDeclared(e: Elem, decls: map<string, Declaration>)
  {
    match e
    case ElemDecl(d) => d in decls.Values
    case ElemAttr(a) => a.decl in decls.Values && a.attrName != InvalidAttr
  }

  /** One element of a tuple: a comma first unless it is the first, none before the first. */
  function TupleElem(s: string, tok: Token, decls: map<string, Declaration>, first: bool): (r: Parse<Elem>)
    ensures r.Ok? ==> |r.value.1| < |s| && ElemDeclared(r.value.0, decls)
  {
    if !first && tok.kind != Comma then Err("Multiple element tuple should be comma separated")
    else if first && tok.kind == Comma then Err("Multiple element tuple should not start with `,`")
    else
      var s1 :- if tok.kind == Comma then Expect(Comma, s) else Ok(s);
      ParseElem(s1, decls)
  }

  /** The loop of parse_tuple, after '<': elements separated by commas up to '>' (or the end
   *  of input), no leading comma, and at least one element. */
  function TupleElems(s: string, decls: map<string, Declaration>, acc: seq<Elem>): (r: Parse<seq<Elem>>)
    ensures r.Ok? ==> |r.value.1| < |s| && |r.value.0| >= 1
    decreases |s|
  {
    var tok :- Peek(s);
    if tok.kind != RAngle && tok.kind != EndOfFile then
      var (e, s1) :- TupleElem(s, tok, decls, acc == []);
      TupleElems(s1, decls, acc + [e])
    else
      var s1 :- Expect(RAngle, s);
      if acc == [] then Err("Tuple in result clause cannot be empty") else Ok((acc, s1))
  }

  /** The tuple keeps the elements already read, in order, and adds only declared ones. */
  lemma {:induction false} TupleElemsExtends(s: string, decls: map<string, Declaration>, acc: seq<Elem>)
    requires TupleElems(s, decls, acc).Ok?
    ensures var elems := TupleElems(s, decls, acc).value.0;
            |acc| <= |elems| && elems[..|acc|] == acc
            && forall k :: |acc| <= k < |elems| ==> ElemDeclared(elems[k], decls)
    decreases |s|
  {
    var more, e, s1 := TupleElemsStep(s, decls, acc);
    if more {
      TupleElemsExtends(s1, decls, acc + [e]);
      ExtendsStep(TupleElems(s, decls, acc).value.0, acc, e, decls);
    }
  }

  /** One round of the tuple loop: either the tuple ends here with the elements read so far,
   *  or a declared element e is read and the loop goes on after it. */
  lemma TupleElemsStep(s: string, decls: map<string, Declaration>, acc: seq<Elem>)
    returns (more: bool, e: Elem, s1: string)
    requires TupleElems(s, decls, acc).Ok?
    ensures !more ==> TupleElems(s, decls, acc).value.0 == acc
    ensures more ==> |s1| < |s| && ElemDeclared(e, decls)
                     && TupleElems(s, decls, acc) == TupleElems(s1, decls, acc + [e])
  {
    var tok := Peek(s).value;
    more := tok.kind != RAngle && tok.kind != EndOfFile;
    if more {
      e, s1 := TupleElem(s, tok, decls, acc == []).value.0, TupleElem(s, tok, decls, acc == []).value.1;
    } else {
      e, s1 := ElemDecl(Declaration("", InvalidEnt)), s;
    }
  }

  lemma ExtendsStep(elems: seq<Elem>, acc: seq<Elem>, e: Elem, decls: map<string, Declaration>)
    requires ElemDeclared(e, decls)
    requires |acc| + 1 <= |elems| && elems[..|acc| + 1] == acc + [e]
    requires forall k :: |acc| + 1 <= k < |elems| ==> ElemDeclared(elems[k], decls)
    ensures elems[..|acc|] == acc
    ensures forall k :: |acc| <= k < |elems| ==> ElemDeclared(elems[k], decls)
  {
    assert elems[..|acc|] == elems[..|acc| + 1][..|acc|];
    assert elems[|acc|] == elems[..|acc| + 1][|acc|] == e;
  }

  /** parse_tuple: one element, or '<' elem (',' elem)* '>'. */
  function ParseTuple(s: string, decls: map<string, Declaration>): (r: Parse<seq<Elem>>)
    ensures r.Ok? ==> |r.value.1| < |s| && |r.value.0| >= 1
  {
    var tok :- Peek(s);
    if tok.kind != LAngle then
      var (e, s1) :- ParseElem(s, decls);
      Ok(([e], s1))
    else
      var s1 := Scan(s).value.1;
      TupleElems(s1, decls, [])
  }

  /** "<>" is rejected: a tuple is never empty. */
  lemma EmptyTuple(rest: string, decls: map<string, Declaration>)
    ensures ParseTuple("<>" + rest, decls).Err?
  {
    ScanPunctuation('<', ">" + rest);
    assert ['<'] + (">" + rest) == "<>" + rest;
    ScanPunctuation('>', rest);
    assert ['>'] + rest == ">" + rest;
  }

  /** parse_tuple, with its loop. */
  method ParseTupleLoop(s: string, decls: map<string, Declaration>) returns (r: Parse<seq<Elem>>)
    ensures r == ParseTuple(s, decls)
  {
    var first := Peek(s);
    if first.Err? {
      return Err(first.msg);
    }
    if first.value.kind != LAngle {
      var e := ParseElem(s, decls);
      if e.Err? {
        return Err(e.msg);
      }
      return Ok(([e.value.0], e.value.1));
    }
    var stream := Expect(LAngle, s).value;
    var ret: seq<Elem> := [];
    while true
      invariant ParseTuple(s, decls) == TupleElems(stream, decls, ret)
      decreases |stream|
    {
      var tok := Peek(stream);
      if tok.Err? {
        return Err(tok.msg);
      }
      if tok.value.kind == RAngle || tok.value.kind == EndOfFile {
        break;
      }
      var e := TupleElem(stream, tok.value, decls, ret == []);
      if e.Err? {
        return Err(e.msg);
      }
      ret := ret + [e.value.0];
      stream := e.value.1;
    }
    var close := Expect(RAngle, stream);
    if close.Err? {
      return Err(close.msg);
    }
    if ret == [] {
      return Err("Tuple in result clause cannot be empty");
    }
    r := Ok((ret, close.value));
  }

  // ------------------------------------------------------------------ Select

  /** parse_result: BOOLEAN, or a tuple. */
  function ParseResult(s: string, decls: map<string, Declaration>): (r: Parse<ResultCl>)
    ensures r.Ok? ==> |r.value.1| < |s|
    ensures r.Ok? && r.value.0.TupleResult? ==> |r.value.0.elems| >= 1
  {
    var tok :- Peek(s);
    if tok == BooleanTok then
      var s1 := Scan(s).value.1;
      Ok((BoolResult, s1))
    else
      var (elems, s1) :- ParseTuple(s, decls);
      Ok((TupleResult(elems), s1))
  }

  /** The clause loop of parse_select: a pattern clause while none has been read, a such-that
   *  clause while none has been read; it stops at anything else. */
  function Clauses(s: string, decls: map<string, Declaration>, suchThat: Option<SuchThatCl>,
                   pattern: Option<PatternCl>): (r: Parse<(Option<SuchThatCl>, Option<PatternCl>)>)
    ensures r.Ok? ==> |r.value.1| <= |s|
    ensures r.Ok? && suchThat.Some? ==> r.value.0.0 == suchThat
    ensures r.Ok? && pattern.Some? ==> r.value.0.1 == pattern
    ensures r.Ok? ==> PeekTwo(r.value.1).Ok?
    ensures r.Ok? ==> var (t0, t1) := PeekTwo(r.value.1).value;
                      (t0 == PatternTok ==> r.value.0.1.Some?)
                      && (t0 == SuchTok && t1 == ThatTok ==> r.value.0.0.Some?)
    decreases |s|
  {
    var (t0, t1) :- PeekTwo(s);
    if t0 == PatternTok && pattern.None? then
      var (p, s1) :- ParsePattern(s, decls);
      Clauses(s1, decls, suchThat, Some(p))
    else if t0 == SuchTok && t1 == ThatTok && suchThat.None? then
      var (st, s1) :- ParseSuchThat(s, decls);
      Clauses(s1, decls, Some(st), pattern)
    else Ok(((suchThat, pattern), s))
  }

  /** parse_select: `Select`, the result, then the clauses. */
  function ParseSelect(s: string, decls: map<string, Declaration>): (r: Parse<Select>)
    ensures r.Ok? ==> |r.value.1| < |s|
  {
    var (kw, s1) :- Scan(s);
    if kw != SelectTok then Err("Select clauses should start with `Select` instead of " + kw.text)
    else
      var (result, s2) :- ParseResult(s1, decls);
      var ((suchThat, pattern), s3) :- Clauses(s2, decls, None, None);
      Ok((Select(result, suchThat, pattern), s3))
  }

  /** parse_select, with its clause loop. */
  method ParseSelectLoop(s: string, decls: map<string, Declaration>) returns (r: Parse<Select>)
    ensures r == ParseSelect(s, decls)
  {
    var kw := Scan(s);
    if kw.Err? {
      return Err(kw.msg);
    }
    if kw.value.0 != SelectTok {
      return Err("Select clauses should start with `Select` instead of " + kw.value.0.text);
    }
    var result := ParseResult(kw.value.1, decls);
    if result.Err? {
      return Err(result.msg);
    }
    var stream := result.value.1;
    var suchThat: Option<SuchThatCl> := None;
    var pattern: Option<PatternCl> := None;
    var allowPattern := true;
    var allowSuchThat := true;
    var clauseTok := PeekTwo(stream);
    while clauseTok.Ok? && ((clauseTok.value.0 == PatternTok && allowPattern)
                            || (clauseTok.value == (SuchTok, ThatTok) && allowSuchThat))
      invariant allowPattern <==> pattern.None?
      invariant allowSuchThat <==> suchThat.None?
      invariant clauseTok == PeekTwo(stream)
      invariant Clauses(result.value.1, decls, None, None) == Clauses(stream, decls, suchThat, pattern)
      decreases |stream|
    {
      if clauseTok.value.0 == PatternTok {
        var p := ParsePattern(stream, decls);
        if p.Err? {
          return Err(p.msg);
        }
        pattern := Some(p.value.0);
        stream := p.value.1;
        allowPattern := false;
      } else {
        var st := ParseSuchThat(stream, decls);
        if st.Err? {
          return Err(st.msg);
        }
        suchThat := Some(st.value.0);
        stream := st.value.1;
        allowSuchThat := false;
      }
      clauseTok := PeekTwo(stream);
    }
    if clauseTok.Err? {
      return Err(clauseTok.msg);
    }
    r := Ok((Select(result.value.0, suchThat, pattern), stream));
  }

  // ------------------------------------------------------------------ the query

  /** The loop of parsePQL: declarations until `Select`; the select must end the input. */
  function QueryFrom(s: string, decls: map<string, Declaration>): (r: Result<Query>)
    ensures r.Ok? ==> decls.Keys <= r.value.declarations.Keys
    decreases |s|
  {
    var t :- Peek(s);
    if t.kind == EndOfFile then Err("All queries should contain a select clause")
    else if t == SelectTok then
      var (select, s1) :- ParseSelect(s, decls);
      var t2 :- Peek(s1);
      if t2.kind != EndOfFile then Err("Query should end after a single select clause")
      else Ok(Query(decls, select))
    else
      var (d, s1) :- ParseDeclaration(s, decls);
      DeclarationAdds(s, decls);
      QueryFrom(s1, d)
  }

  /** parsePQL */
  function ParseQuery(input: string): Result<Query>
  {
    QueryFrom(input, map[])
  }

  /** parsePQL, with its loop over the declarations. */
  method ParsePQL(input: string) returns (r: Result<Query>)
    ensures r == ParseQuery(input)
  {
    var list := new DeclarationList();
    var stream := input;
    while true
      invariant list.Valid()
      invariant ParseQuery(input) == QueryFrom(stream, list.declarations)
      decreases |stream|
    {
      var t := Peek(stream);
      if t.Err? {
        return Err(t.msg);
      }
      if t.value.kind == EndOfFile {
        return Err("All queries should contain a select clause");
      }
      if t.value == SelectTok {
        r := FinishQuery(stream, list.declarations);
        return;
      }
      ghost var before := list.declarations;
      var next := InsertDeclaration(stream, list);
      if next.Err? {
        return Err(next.msg);
      }
      assert QueryFrom(stream, before) == QueryFrom(next.value, list.declarations);
      stream := next.value;
    }
  }

  /** The end of parsePQL: the select clause, which must end the input. */
  method FinishQuery(s: string, decls: map<string, Declaration>) returns (r: Result<Query>)
    requires Peek(s) == Ok(SelectTok)
    ensures r == QueryFrom(s, decls)
  {
    var select := ParseSelectLoop(s, decls);
    if select.Err? {
      return Err(select.msg);
    }
    var after := Peek(select.value.1);
    if after.Err? {
      return Err(after.msg);
    }
    if after.value.kind != EndOfFile {
      return Err("Query should end after a single select clause");
    }
    return Ok(Query(decls, select.value.0));
  }

  /** The select clause must end the input: whatever it leaves unread, such as a second
   *  pattern or such-that clause or a second Select, makes the query fail. */
  lemma SelectEndsQuery(s: string, decls: map<string, Declaration>)
    requires Peek(s) == Ok(SelectTok) && ParseSelect(s, decls).Ok?
    ensures var (select, rest) := ParseSelect(s, decls).value;
            QueryFrom(s, decls).Ok? <==> Peek(rest).Ok? && Peek(rest).value.kind == EndOfFile
    ensures QueryFrom(s, decls).Ok? ==> QueryFrom(s, decls).value.select == ParseSelect(s, decls).value.0
  {
  }

  /** A query with a pattern clause followed by a second one fails: the clause loop reads at
   *  most one pattern clause and at most one such-that clause, and leaves the rest. */
  lemma SecondPatternRejected(s: string, decls: map<string, Declaration>)
    requires Peek(s) == Ok(SelectTok) && ParseSelect(s, decls).Ok?
    requires PeekTwo(ParseSelect(s, decls).value.1).Ok?
    requires PeekTwo(ParseSelect(s, decls).value.1).value.0 == PatternTok
    ensures ParseSelect(s, decls).value.0.pattern.Some?
    ensures QueryFrom(s, decls).Err?
  {
  }

  /** Input that ends before any Select fails. */
  lemma NoSelect(s: string, decls: map<string, Declaration>)
    requires Peek(s).Ok? && Peek(s).value.kind == EndOfFile
    ensures QueryFrom(s, decls).Err?
  {
  }
}
