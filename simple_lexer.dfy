/**
 * The SIMPLE lexer (simple/lexer.cpp). The source shrinks the caller's string view in place;
 * here the methods take the view and return what is left of it, and NextToken is the
 * function they are proved against, which the parser uses.
 */
module SimpleLexer {
  import opened Wrappers

  datatype TokenType =
    | EndOfFile
    | LAngle | RAngle | LBrace | RBrace | LParen | RParen
    | Exclamation | LogicalAnd | LogicalOr
    | Equal
    | NotEqual | EqualsTo | GreaterEqual | LessEqual
    | Plus | Minus | Asterisk | Slash | Percent | Semicolon
    | Identifier | Number

  datatype Token = Token(text: string, kind: TokenType)

  predicate IsWhitespace(c: char)
  {
    c == '\n' || c == '\r' || c == '\t' || c == ' '
  }

  predicate IsLetter(c: char)
  {
    ('a' <= c <= 'z') || ('A' <= c <= 'Z')
  }

  predicate IsDigit(c: char)
  {
    '0' <= c <= '9'
  }

  predicate IsAlnum(c: char)
  {
    IsLetter(c) || IsDigit(c)
  }

  /** What eat_whitespace leaves: the input without its maximal whitespace prefix. */
  function SkipWs(s: string): (r: string)
    ensures |r| <= |s|
  {
    if |s| > 0 && IsWhitespace(s[0]) then SkipWs(s[1..]) else s
  }

  /** eat_whitespace removes exactly the maximal whitespace prefix. */
  lemma {:induction false} SkipWsSpec(s: string)
    ensures SkipWs(s) == s[|s| - |SkipWs(s)|..]
    ensures forall i :: 0 <= i < |s| - |SkipWs(s)| ==> IsWhitespace(s[i])
    ensures |SkipWs(s)| == 0 || !IsWhitespace(SkipWs(s)[0])
  {
    if |s| > 0 && IsWhitespace(s[0]) {
      SkipWsSpec(s[1..]);
      assert forall i :: 0 < i < |s| ==> s[i] == s[1..][i - 1];
    }
  }

  /** eat_whitespace */
  method EatWhitespace(sv: string) returns (rest: string)
    ensures rest == SkipWs(sv)
  {
    rest := sv;
    while |rest| > 0 && IsWhitespace(rest[0])
      invariant SkipWs(rest) == SkipWs(sv)
    {
      rest := rest[1..];
    }
  }

  /** The length of the maximal run of letters and digits at the start of s. */
  function AlnumRun(s: string): (n: nat)
    ensures n <= |s|
  {
    if |s| > 0 && IsAlnum(s[0]) then 1 + AlnumRun(s[1..]) else 0
  }

  lemma {:induction false} AlnumRunSpec(s: string)
    ensures forall i :: 0 <= i < AlnumRun(s) ==> IsAlnum(s[i])
    ensures AlnumRun(s) == |s| || !IsAlnum(s[AlnumRun(s)])
  {
    if |s| > 0 && IsAlnum(s[0]) {
      AlnumRunSpec(s[1..]);
      assert forall i :: 0 < i < |s| ==> s[i] == s[1..][i - 1];
    }
  }

  /** The length of the maximal run of digits at the start of s. */
  function DigitRun(s: string): (n: nat)
    ensures n <= |s|
  {
    if |s| > 0 && IsDigit(s[0]) then 1 + DigitRun(s[1..]) else 0
  }

  lemma {:induction false} DigitRunSpec(s: string)
    ensures forall i :: 0 <= i < DigitRun(s) ==> IsDigit(s[i])
    ensures DigitRun(s) == |s| || !IsDigit(s[DigitRun(s)])
  {
    if |s| > 0 && IsDigit(s[0]) {
      DigitRunSpec(s[1..]);
      assert forall i :: 0 < i < |s| ==> s[i] == s[1..][i - 1];
    }
  }

  /** The token type of a one-character token, if c is one. */
  function SingleCharToken(c: char): Option<TokenType>
  {
    match c
    case '<' => Some(LAngle)
    case '>' => Some(RAngle)
    case '{' => Some(LBrace)
    case '}' => Some(RBrace)
    case '(' => Some(LParen)
    case ')' => Some(RParen)
    case '+' => Some(Plus)
    case '-' => Some(Minus)
    case '*' => Some(Asterisk)
    case '/' => Some(Slash)
    case '%' => Some(Percent)
    case '=' => Some(Equal)
    case ';' => Some(Semicolon)
    case '!' => Some(Exclamation)
    case _ => None
  }

  /** The token type of a two-character operator, if s starts with one. */
  function TwoCharToken(s: string): Option<TokenType>
  {
    if |s| < 2 then None
    else if s[0] == '>' && s[1] == '=' then Some(GreaterEqual)
    else if s[0] == '<' && s[1] == '=' then Some(LessEqual)
    else if s[0] == '!' && s[1] == '=' then Some(NotEqual)
    else if s[0] == '=' && s[1] == '=' then Some(EqualsTo)
    else if s[0] == '&' && s[1] == '&' then Some(LogicalAnd)
    else if s[0] == '|' && s[1] == '|' then Some(LogicalOr)
    else None
  }

  /** The token getNextToken returns and the stream it leaves behind. */
  predicate Consumes(s: string, tok: Token, rest: string)
  {
    var t := SkipWs(s);
    |tok.text| <= |t| && tok.text == t[..|tok.text|] && rest == t[|tok.text|..]
    && (tok.kind != EndOfFile ==> |tok.text| > 0)
  }

  /** getNextToken: skip whitespace, then lex at the start of what is left. */
  function NextToken(s: string): (r: Result<(Token, string)>)
    ensures r.Ok? ==> |r.value.1| <= |s| && (r.value.0.kind != EndOfFile ==> |r.value.1| < |s|)
  {
    LexAt(SkipWs(s))
  }

  /** The token's text is what lies between the whitespace and the rest of the stream, and
   *  only EndOfFile has empty text. */
  lemma NextTokenConsumes(s: string)
    ensures NextToken(s).Ok? ==> Consumes(s, NextToken(s).value.0, NextToken(s).value.1)
  {
    LexAtSpec(SkipWs(s));
  }

  /** The token at the very start of t: end of input or a NUL gives EndOfFile; then an
   *  identifier (a letter, then letters and digits), a number (digits, no leading zero unless
   *  it is "0"), a two-character operator, or a one-character token. The scanning loops of
   *  the source test only that the view is non-empty; here they stop at its end. */
  function LexAt(t: string): (r: Result<(Token, string)>)
    ensures r.Ok? ==> |r.value.1| <= |t| && (r.value.0.kind != EndOfFile ==> |r.value.1| < |t|)
  {
    if |t| == 0 || t[0] == '\0' then Ok((Token("", EndOfFile), t))
    else if IsLetter(t[0]) then
      var n := AlnumRun(t);
      Ok((Token(t[..n], Identifier), t[n..]))
    else if IsDigit(t[0]) then
      var n := DigitRun(t);
      if n > 1 && t[0] == '0' then Err("multi-digit integer literal cannot start with 0")
      else Ok((Token(t[..n], Number), t[n..]))
    else if TwoCharToken(t).Some? then Ok((Token(t[..2], TwoCharToken(t).value), t[2..]))
    else if SingleCharToken(t[0]).Some? then Ok((Token(t[..1], SingleCharToken(t[0]).value), t[1..]))
    else Err("invalid token '" + [t[0]] + "'")
  }

  lemma LexAtSpec(t: string)
    ensures LexAt(t).Ok? ==>
              var (tok, rest) := LexAt(t).value;
              |tok.text| <= |t| && tok.text == t[..|tok.text|] && rest == t[|tok.text|..]
              && (tok.kind != EndOfFile ==> |tok.text| > 0)
  {
  }

  /** The token alone, as the parser's peek sees it; nothing is consumed. */
  function PeekToken(s: string): (r: Result<Token>)
    ensures r.Ok? <==> NextToken(s).Ok?
    ensures r.Ok? ==> r.value == NextToken(s).value.0
  {
    var r :- NextToken(s);
    Ok(r.0)
  }

  /** getNextToken, with the counting loops of the source. */
  method GetNextToken(sv: string) returns (r: Result<(Token, string)>)
    ensures r == NextToken(sv)
  {
    var t := EatWhitespace(sv);
    r := LexText(t);
  }

  /** The part of getNextToken after eat_whitespace. */
  method LexText(t: string) returns (r: Result<(Token, string)>)
    ensures r == LexAt(t)
  {
    if |t| == 0 || t[0] == '\0' {
      return Ok((Token("", EndOfFile), t));
    } else if IsLetter(t[0]) {
      var numChars := 0;
      AlnumRunSpec(t);
      while numChars < |t| && (IsDigit(t[numChars]) || IsLetter(t[numChars]))
        invariant numChars <= AlnumRun(t)
      {
        numChars := numChars + 1;
      }
      return Ok((Token(t[..numChars], Identifier), t[numChars..]));
    } else if IsDigit(t[0]) {
      var numChars := 0;
      DigitRunSpec(t);
      while numChars < |t| && IsDigit(t[numChars])
        invariant numChars <= DigitRun(t)
      {
        numChars := numChars + 1;
      }
      var num := t[..numChars];
      if |num| > 1 && num[0] == '0' {
        return Err("multi-digit integer literal cannot start with 0");
      }
      return Ok((Token(num, Number), t[numChars..]));
    }
    var two := TwoCharToken(t);
    if two.Some? {
      return Ok((Token(t[..2], two.value), t[2..]));
    }
    var one := SingleCharToken(t[0]);
    if one.None? {
      return Err("invalid token '" + [t[0]] + "'");
    }
    r := Ok((Token(t[..1], one.value), t[1..]));
  }

  /** peekNextToken: the same token, from a copy of the view. */
  method PeekNextToken(sv: string) returns (r: Result<Token>)
    ensures r == PeekToken(sv)
  {
    var n := GetNextToken(sv);
    if n.Err? {
      return Err(n.msg);
    }
    r := Ok(n.value.0);
  }

  // ---------------------------------------------------------------- properties

  predicate IsName(x: string)
  {
    |x| > 0 && IsLetter(x[0]) && forall i :: 0 <= i < |x| ==> IsAlnum(x[i])
  }

  /** The text of a number the lexer accepts. */
  predicate IsNumeral(x: string)
  {
    |x| > 0 && (forall i :: 0 <= i < |x| ==> IsDigit(x[i])) && (|x| == 1 || x[0] != '0')
  }

  lemma {:induction false} AlnumRunOf(x: string, rest: string)
    requires forall i :: 0 <= i < |x| ==> IsAlnum(x[i])
    requires |rest| == 0 || !IsAlnum(rest[0])
    ensures AlnumRun(x + rest) == |x|
  {
    if |x| > 0 {
      AlnumRunOf(x[1..], rest);
      assert (x + rest)[1..] == x[1..] + rest;
    } else {
      assert x + rest == rest;
    }
  }

  lemma {:induction false} DigitRunOf(x: string, rest: string)
    requires forall i :: 0 <= i < |x| ==> IsDigit(x[i])
    requires |rest| == 0 || !IsDigit(rest[0])
    ensures DigitRun(x + rest) == |x|
  {
    if |x| > 0 {
      DigitRunOf(x[1..], rest);
      assert (x + rest)[1..] == x[1..] + rest;
    } else {
      assert x + rest == rest;
    }
  }

  /** Leading whitespace does not change the token or what follows it. */
  lemma SkipLeadingSpace(s: string)
    ensures NextToken(" " + s) == NextToken(s)
  {
    assert (" " + s)[1..] == s;
  }

  lemma NoLeadingSpace(s: string)
    requires |s| > 0 && !IsWhitespace(s[0])
    ensures NextToken(s) == LexAt(s)
  {
  }

  /** A name followed by a character that cannot continue it lexes as one identifier. */
  lemma LexName(x: string, rest: string)
    requires IsName(x)
    requires |rest| == 0 || !IsAlnum(rest[0])
    ensures NextToken(x + rest) == Ok((Token(x, Identifier), rest))
  {
    AlnumRunOf(x, rest);
    assert (x + rest)[0] == x[0];
    NoLeadingSpace(x + rest);
    assert (x + rest)[..|x|] == x && (x + rest)[|x|..] == rest;
  }

  /** A numeral followed by a non-digit lexes as one number, which is also maximal munch:
   *  "100aaa000bbb" is the number "100" followed by the identifier "aaa000bbb". */
  lemma LexNumeral(x: string, rest: string)
    requires IsNumeral(x)
    requires |rest| == 0 || !IsDigit(rest[0])
    ensures NextToken(x + rest) == Ok((Token(x, Number), rest))
  {
    DigitRunOf(x, rest);
    assert (x + rest)[0] == x[0];
    NoLeadingSpace(x + rest);
    assert (x + rest)[..|x|] == x && (x + rest)[|x|..] == rest;
  }

  /** A one-character token that does not start a two-character operator lexes alone. */
  lemma LexSingle(c: char, rest: string)
    requires SingleCharToken(c).Some?
    requires TwoCharToken([c] + rest).None?
    ensures NextToken([c] + rest) == Ok((Token([c], SingleCharToken(c).value), rest))
  {
    assert ([c] + rest)[0] == c;
    NoLeadingSpace([c] + rest);
    assert ([c] + rest)[1..] == rest;
    assert ([c] + rest)[..1] == [c];
  }

  /** A two-character operator is recognised before its one-character prefix. */
  lemma LexDouble(op: string, rest: string)
    requires |op| == 2 && TwoCharToken(op).Some?
    ensures NextToken(op + rest) == Ok((Token(op, TwoCharToken(op).value), rest))
  {
    assert (op + rest)[..2] == op && (op + rest)[2..] == rest;
    assert (op + rest)[0] == op[0];
    NoLeadingSpace(op + rest);
  }

  /** The multi-digit numbers with a leading zero are exactly the digit runs rejected. */
  lemma LeadingZeroRejected(s: string)
    requires |s| >= 2 && s[0] == '0' && IsDigit(s[1])
    ensures NextToken(s).Err?
  {
    NoLeadingSpace(s);
    assert DigitRun(s) >= 2 by {
      assert DigitRun(s) == 1 + DigitRun(s[1..]);
    }
  }

  /** Empty input, input of only whitespace, or a NUL after the whitespace gives
   *  EndOfFile with empty text; every other token has non-empty text. */
  lemma EndOfFileSpec(s: string)
    ensures NextToken(s).Ok? && NextToken(s).value.0.kind == EndOfFile
            <==> |SkipWs(s)| == 0 || SkipWs(s)[0] == '\0'
    ensures NextToken(s).Ok? && NextToken(s).value.0.kind == EndOfFile ==> NextToken(s).value.0.text == ""
  {
    var t := SkipWs(s);
    if !(|t| == 0 || t[0] == '\0') {
      assert SingleCharToken(t[0]) != Some(EndOfFile);
      assert TwoCharToken(t) != Some(EndOfFile);
    }
  }

  /** A space after a one-character token ends it: "> =" is '>' then '=', where ">=" is
   *  one token. */
  lemma SpaceSeparates(c: char, rest: string)
    requires SingleCharToken(c).Some?
    ensures NextToken([c] + " " + rest) == Ok((Token([c], SingleCharToken(c).value), " " + rest))
  {
    assert [c] + " " + rest == [c] + (" " + rest);
    assert ([c] + (" " + rest))[..2] == [c, ' '];
    LexSingle(c, " " + rest);
  }

  /** A character that starts no token makes the lexer fail. */
  lemma InvalidCharacter(c: char, rest: string)
    requires !IsWhitespace(c) && c != '\0' && !IsAlnum(c)
    requires SingleCharToken(c).None? && c != '&' && c != '|'
    ensures NextToken([c] + rest).Err?
  {
    assert ([c] + rest)[0] == c;
    NoLeadingSpace([c] + rest);
  }
}
