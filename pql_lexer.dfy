/**
 * The query lexer (pql/parser/lexer.cpp). Like the SIMPLE lexer it shrinks the caller's string
 * view in place; here the methods take the view and return what is left of it, and they are
 * proved against the functions NextToken and NextKeywordToken. Whitespace, letters and digits
 * are the same character classes the SIMPLE lexer uses.
 */
module PqlLexer {
  import opened Wrappers
  import SL = SimpleLexer

  datatype TokenType =
    | EndOfFile
    | LParen | RParen | LAngle | RAngle
    | Asterisk | Underscore | Semicolon | Comma | Dot | HashTag
    | Identifier | Number | String
    | DoubleQuotes  // a lone '"': the token the query parser expects; this lexer never makes it
    | KwNext | KwUses | KwCalls | KwParent | KwFollows | KwAffects | KwModifies
    | KwNextStar | KwCallsStar | KwParentStar | KwFollowsStar | KwAffectsStar
    | KwAnd | KwWith | KwSelect | KwPattern | KwSuchThat

  datatype Token = Token(text: string, kind: TokenType)

  /** eatWhitespace: the view without its maximal whitespace prefix, and how many characters
   *  were removed. */
  method EatWhitespace(sv: string) returns (count: nat, rest: string)
    ensures rest == SL.SkipWs(sv)
    ensures count == |sv| - |rest| && rest == sv[count..]
  {
    count := 0;
    rest := sv;
    while |rest| > 0 && SL.IsWhitespace(rest[0])
      invariant SL.SkipWs(rest) == SL.SkipWs(sv)
      invariant count <= |sv| && rest == sv[count..]
    {
      count := count + 1;
      rest := rest[1..];
    }
  }

  /** The ten punctuation characters and their token types. */
  function Punctuation(c: char): Option<TokenType>
  {
    match c
    case '(' => Some(LParen)
    case ')' => Some(RParen)
    case '<' => Some(LAngle)
    case '>' => Some(RAngle)
    case '_' => Some(Underscore)
    case ';' => Some(Semicolon)
    case '*' => Some(Asterisk)
    case ',' => Some(Comma)
    case '.' => Some(Dot)
    case '#' => Some(HashTag)
    case _ => None
  }

  /** The position of the first '"' in s, if there is one. */
  function QuoteIndex(s: string): (r: Option<nat>)
    ensures r.Some? ==> r.value < |s| && s[r.value] == '"'
    ensures r.Some? ==> forall j :: 0 <= j < r.value ==> s[j] != '"'
    ensures r.None? ==> forall j :: 0 <= j < |s| ==> s[j] != '"'
  {
    if s == [] then None
    else if s[0] == '"' then Some(0)
    else match QuoteIndex(s[1..])
      case None => None
      case Some(n) => Some(n + 1)
  }

  /** The token at the very start of t: end of input or a NUL gives EndOfFile; then an
   *  identifier (a letter, then letters and digits), a number (a run of digits, leading zeros
   *  allowed), a quoted string (its text is what lies between the quotes), or a punctuation
   *  character. The scanning loops of the source test only that the view is non-empty; here
   *  they stop at its end. */
  function LexAt(t: string): (r: Result<(Token, string)>)
    ensures r.Ok? ==> |r.value.1| <= |t| && (r.value.0.kind != EndOfFile ==> |r.value.1| < |t|)
  {
    if |t| == 0 || t[0] == '\0' then Ok((Token("", EndOfFile), t))
    else if SL.IsLetter(t[0]) then
      var n := SL.AlnumRun(t);
      Ok((Token(t[..n], Identifier), t[n..]))
    else if SL.IsDigit(t[0]) then
      var n := SL.DigitRun(t);
      Ok((Token(t[..n], Number), t[n..]))
    else if t[0] == '"' then
      var body := t[1..];
      match QuoteIndex(body)
      case None => Err("unterminated expression string (expected '\"')")
      case Some(n) => Ok((Token(body[..n], String), body[n + 1..]))
    else match Punctuation(t[0])
      case None => Err("invalid token '" + [t[0]] + "'")
      case Some(tt) => Ok((Token(t[..1], tt), t[1..]))
  }

  /** getNextToken: skip whitespace, then lex at the start of what is left. */
  function NextToken(s: string): (r: Result<(Token, string)>)
    ensures r.Ok? ==> |r.value.1| <= |s| && (r.value.0.kind != EndOfFile ==> |r.value.1| < |s|)
  {
    LexAt(SL.SkipWs(s))
  }

  /** getNextToken, with the counting loops of the source. */
  method GetNextToken(sv: string) returns (r: Result<(Token, string)>)
    ensures r == NextToken(sv)
  {
    var _, t := EatWhitespace(sv);
    if |t| == 0 || t[0] == '\0' {
      return Ok((Token("", EndOfFile), t));
    } else if SL.IsLetter(t[0]) {
      r := LexIdent(t);
    } else if SL.IsDigit(t[0]) {
      r := LexNumeral(t);
    } else if t[0] == '"' {
      r := LexQuoted(t);
    } else {
      var tt := Punctuation(t[0]);
      if tt.None? {
        return Err("invalid token '" + [t[0]] + "'");
      }
      r := Ok((Token(t[..1], tt.value), t[1..]));
    }
  }

  /** The identifier branch: letters and digits are counted one by one. */
  method LexIdent(t: string) returns (r: Result<(Token, string)>)
    requires |t| > 0 && t[0] != '\0' && SL.IsLetter(t[0])
    ensures r == LexAt(t)
  {
    var numChars := 0;
    SL.AlnumRunSpec(t);
    while numChars < |t| && (SL.IsDigit(t[numChars]) || SL.IsLetter(t[numChars]))
      invariant numChars <= SL.AlnumRun(t)
    {
      numChars := numChars + 1;
    }
    return Ok((Token(t[..numChars], Identifier), t[numChars..]));
  }

  /** The number branch: digits are counted one by one. */
  method LexNumeral(t: string) returns (r: Result<(Token, string)>)
    requires |t| > 0 && t[0] != '\0' && !SL.IsLetter(t[0]) && SL.IsDigit(t[0])
    ensures r == LexAt(t)
  {
    var numChars := 0;
    SL.DigitRunSpec(t);
    while numChars < |t| && SL.IsDigit(t[numChars])
      invariant numChars <= SL.DigitRun(t)
    {
      numChars := numChars + 1;
    }
    return Ok((Token(t[..numChars], Number), t[numChars..]));
  }

  /** The string branch: characters up to the closing quote are counted one by one. */
  method LexQuoted(t: string) returns (r: Result<(Token, string)>)
    requires |t| > 0 && t[0] == '"'
    ensures r == LexAt(t)
  {
    var body := t[1..];
    var numChars := 0;
    while numChars < |body| && body[numChars] != '"'
      invariant numChars <= |body|
      invariant forall j :: 0 <= j < numChars ==> body[j] != '"'
    {
      numChars := numChars + 1;
    }
    if numChars == |body| {
      return Err("unterminated expression string (expected '\"')");
    }
    return Ok((Token(body[..numChars], String), body[numChars + 1..]));
  }

  // ------------------------------------------------------------------ keywords

  /** The keywords in the order getNextKeywordToken tries them. */
  const Keywords: seq<(string, TokenType)> := [
    ("Next", KwNext), ("Uses", KwUses), ("Calls", KwCalls), ("Parent", KwParent),
    ("Follows", KwFollows), ("Affects", KwAffects), ("Modifies", KwModifies),
    ("Next*", KwNextStar), ("Calls*", KwCallsStar), ("Parent*", KwParentStar),
    ("Follows*", KwFollowsStar), ("Affects*", KwAffectsStar),
    ("and", KwAnd), ("with", KwWith), ("Select", KwSelect), ("pattern", KwPattern),
    ("such that", KwSuchThat)
  ]

  predicate StartsWith(s: string, prefix: string)
  {
    |prefix| <= |s| && s[..|prefix|] == prefix
  }

  /** The first keyword, from index `from` on, that t starts with. */
  function FirstKeyword(t: string, from: nat): (r: Option<nat>)
    requires from <= |Keywords|
    ensures r.Some? ==> from <= r.value < |Keywords| && StartsWith(t, Keywords[r.value].0)
    ensures r.Some? ==> forall j :: from <= j < r.value ==> !StartsWith(t, Keywords[j].0)
    ensures r.None? ==> forall j :: from <= j < |Keywords| ==> !StartsWith(t, Keywords[j].0)
    decreases |Keywords| - from
  {
    if from == |Keywords| then None
    else if StartsWith(t, Keywords[from].0) then Some(from)
    else FirstKeyword(t, from + 1)
  }

  /** getNextKeywordToken: skip whitespace; the first keyword in order that the text starts
   *  with, which must not be followed directly by a letter. */
  function NextKeywordToken(s: string): (r: Result<(Token, string)>)
  {
    var t := SL.SkipWs(s);
    match FirstKeyword(t, 0)
    case None => Err("expected a keyword (relation, 'such that', etc.)")
    case Some(i) =>
      var (kw, tt) := Keywords[i];
      var rest := t[|kw|..];
      if |rest| > 0 && SL.IsLetter(rest[0]) then Err("unexpected '" + [rest[0]] + "' after keyword")
      else Ok((Token(kw, tt), rest))
  }

  /** Passing over a keyword the text does not start with leaves the search's answer alone. */
  lemma FirstKeywordSkip(t: string, i: nat)
    requires i < |Keywords| && !StartsWith(t, Keywords[i].0)
    ensures FirstKeyword(t, i) == FirstKeyword(t, i + 1)
  {
  }

  /** getNextKeywordToken, trying the keywords one after another. */
  method GetNextKeywordToken(sv: string) returns (r: Result<(Token, string)>)
    ensures r == NextKeywordToken(sv)
  {
    var _, t := EatWhitespace(sv);
    var i := 0;
    while i < |Keywords| && !StartsWith(t, Keywords[i].0)
      invariant i <= |Keywords|
      invariant FirstKeyword(t, i) == FirstKeyword(t, 0)
    {
      FirstKeywordSkip(t, i);
      i := i + 1;
    }
    if i == |Keywords| {
      assert FirstKeyword(t, 0).None?;
      return Err("expected a keyword (relation, 'such that', etc.)");
    }
    assert FirstKeyword(t, 0) == Some(i);
    var (kw, tt) := Keywords[i];
    var rest := t[|kw|..];
    if |rest| > 0 && SL.IsLetter(rest[0]) {
      return Err("unexpected '" + [rest[0]] + "' after keyword");
    }
    r := Ok((Token(kw, tt), rest));
  }

  // --------------------------------------------------------------------- peeks

  /** peekNextOneToken: the next token, from a copy of the view. */
  function PeekNextOneToken(sv: string): (r: Result<Token>)
    ensures r.Ok? <==> NextToken(sv).Ok?
    ensures r.Ok? ==> r.value == NextToken(sv).value.0
  {
    var (tok, _) :- NextToken(sv);
    Ok(tok)
  }

  /** peekNextTwoTokens: the next two tokens, from a copy of the view. */
  function PeekNextTwoTokens(sv: string): (r: Result<(Token, Token)>)
    ensures r.Ok? <==> NextToken(sv).Ok? && NextToken(NextToken(sv).value.1).Ok?
    ensures r.Ok? ==> r.value.0 == NextToken(sv).value.0
    ensures r.Ok? ==> r.value.1 == NextToken(NextToken(sv).value.1).value.0
  {
    var (fst, rest) :- NextToken(sv);
    var (snd, _) :- NextToken(rest);
    Ok((fst, snd))
  }

  // ---------------------------------------------------------------- properties

  /** The token's text is a piece of the stream after the whitespace, and lexing resumes
   *  right after it (after the closing quote, for a string). */
  lemma {:induction false} NextTokenConsumes(s: string)
    requires NextToken(s).Ok?
    ensures var (tok, rest) := NextToken(s).value;
            var t := SL.SkipWs(s);
            if tok.kind == String then t == "\"" + tok.text + "\"" + rest
            else t == tok.text + rest && (tok.kind != EndOfFile ==> |tok.text| > 0)
  {
    var t := SL.SkipWs(s);
    if |t| > 0 && t[0] == '"' {
      QuotedConsumes(t);
    } else {
      PlainConsumes(t);
    }
  }

  /** The string case of NextTokenConsumes, at the start of the lexed view. */
  lemma QuotedConsumes(t: string)
    requires |t| > 0 && t[0] == '"' && LexAt(t).Ok?
    ensures var (tok, rest) := LexAt(t).value;
            tok.kind == String && t == "\"" + tok.text + "\"" + rest
  {
    var body := t[1..];
    var n := QuoteIndex(body).value;
    assert t == [t[0]] + body;
    assert body == body[..n] + [body[n]] + body[n + 1..];
  }

  /** Every other case of NextTokenConsumes: the token text is a prefix of the view. */
  lemma PlainConsumes(t: string)
    requires !(|t| > 0 && t[0] == '"') && LexAt(t).Ok?
    ensures var (tok, rest) := LexAt(t).value;
            tok.kind != String && t == tok.text + rest && (tok.kind != EndOfFile ==> |tok.text| > 0)
  {
    var (tok, rest) := LexAt(t).value;
    assert t == t[..|tok.text|] + t[|tok.text|..];
  }

  /** A quoted string is one String token holding the text between the quotes; lexing resumes
   *  after the closing quote: "\"1*2+73/414*34\")foobar" gives "1*2+73/414*34" and leaves
   *  ")foobar". */
  lemma LexString(x: string, rest: string)
    requires forall j :: 0 <= j < |x| ==> x[j] != '"'
    ensures NextToken("\"" + x + "\"" + rest) == Ok((Token(x, String), rest))
  {
    var t := "\"" + x + "\"" + rest;
    var body := t[1..];
    assert body == x + "\"" + rest;
    assert QuoteIndex(body) == Some(|x|) by {
      assert body[|x|] == '"';
      assert forall j :: 0 <= j < |x| ==> body[j] == x[j];
    }
    assert body[..|x|] == x && body[|x| + 1..] == rest;
  }

  /** A string with no closing quote is rejected. */
  lemma UnterminatedString(x: string)
    requires forall j :: 0 <= j < |x| ==> x[j] != '"'
    ensures NextToken("\"" + x).Err?
  {
    assert ("\"" + x)[1..] == x;
  }

  /** A run of digits followed by a non-digit is one Number token, a leading zero included. */
  lemma LexDigits(x: string, rest: string)
    requires |x| > 0 && forall i :: 0 <= i < |x| ==> SL.IsDigit(x[i])
    requires |rest| == 0 || !SL.IsDigit(rest[0])
    ensures NextToken(x + rest) == Ok((Token(x, Number), rest))
  {
    SL.DigitRunOf(x, rest);
    assert (x + rest)[0] == x[0];
    assert (x + rest)[..|x|] == x && (x + rest)[|x|..] == rest;
  }

  /** A letter followed by letters and digits, then a character that cannot continue it, is one
   *  Identifier token. */
  lemma LexName(x: string, rest: string)
    requires SL.IsName(x)
    requires |rest| == 0 || !SL.IsAlnum(rest[0])
    ensures NextToken(x + rest) == Ok((Token(x, Identifier), rest))
  {
    SL.AlnumRunOf(x, rest);
    assert (x + rest)[0] == x[0];
    assert (x + rest)[..|x|] == x && (x + rest)[|x|..] == rest;
  }

  /** A punctuation character is a token of its own, and any other character that starts no
   *  token is rejected. */
  lemma LexPunctuation(c: char, rest: string)
    requires !SL.IsWhitespace(c) && c != '\0' && !SL.IsAlnum(c) && c != '"'
    ensures Punctuation(c).Some? ==> NextToken([c] + rest) == Ok((Token([c], Punctuation(c).value), rest))
    ensures Punctuation(c).None? <==> NextToken([c] + rest).Err?
  {
    assert ([c] + rest)[0] == c;
    assert ([c] + rest)[..1] == [c] && ([c] + rest)[1..] == rest;
  }

  lemma StartsWithTransitive(s: string, a: string, b: string)
    requires StartsWith(s, b) && StartsWith(b, a)
    ensures StartsWith(s, a)
  {
    assert s[..|a|] == s[..|b|][..|a|];
  }

  lemma StarPrefix(kw: string)
    ensures StartsWith(kw + "*", kw)
  {
    assert (kw + "*")[..|kw|] == kw;
  }

  /** A keyword that extends an earlier one by '*' is never the first match. */
  lemma StarredNeverFirst(t: string, i: nat, j: nat)
    requires j < i < |Keywords| && Keywords[i].0 == Keywords[j].0 + "*"
    ensures FirstKeyword(t, 0) != Some(i)
  {
    if FirstKeyword(t, 0) == Some(i) {
      StarPrefix(Keywords[j].0);
      StartsWithTransitive(t, Keywords[j].0, Keywords[i].0);
    }
  }

  /** A keyword token has the type of the first keyword the text starts with. */
  lemma KeywordKind(s: string)
    requires NextKeywordToken(s).Ok?
    ensures FirstKeyword(SL.SkipWs(s), 0).Some?
    ensures NextKeywordToken(s).value.0.kind == Keywords[FirstKeyword(SL.SkipWs(s), 0).value].1
  {
  }

  /** Each starred keyword is an earlier keyword followed by '*'. */
  lemma StarredPairs()
    ensures Keywords[7].0 == Keywords[0].0 + "*" && Keywords[8].0 == Keywords[2].0 + "*"
    ensures Keywords[9].0 == Keywords[3].0 + "*" && Keywords[10].0 == Keywords[4].0 + "*"
    ensures Keywords[11].0 == Keywords[5].0 + "*"
  {
  }

  /** The first match is never one of the starred keywords, which sit at 7 to 11. */
  lemma FirstNotStarred(t: string)
    requires FirstKeyword(t, 0).Some?
    ensures !(7 <= FirstKeyword(t, 0).value <= 11)
  {
    StarredPairs();
    StarredNeverFirst(t, 7, 0);
    StarredNeverFirst(t, 8, 2);
    StarredNeverFirst(t, 9, 3);
    StarredNeverFirst(t, 10, 4);
    StarredNeverFirst(t, 11, 5);
  }

  /** The starred token types belong to the keywords at 7 to 11 only. */
  lemma StarredKinds(i: nat)
    requires i < |Keywords| && !(7 <= i <= 11)
    ensures Keywords[i].1 !in {KwNextStar, KwCallsStar, KwParentStar, KwFollowsStar, KwAffectsStar}
  {
  }

  /** Each starred keyword comes after its unstarred prefix, so the first match is never a
   *  starred keyword: getNextKeywordToken never yields KW_NextStar, KW_CallsStar,
   *  KW_ParentStar, KW_FollowsStar or KW_AffectsStar. */
  lemma StarKeywordsShadowed(s: string)
    requires NextKeywordToken(s).Ok?
    ensures NextKeywordToken(s).value.0.kind !in {KwNextStar, KwCallsStar, KwParentStar, KwFollowsStar, KwAffectsStar}
  {
    KeywordKind(s);
    FirstNotStarred(SL.SkipWs(s));
    StarredKinds(FirstKeyword(SL.SkipWs(s), 0).value);
  }

  /** "Follows*" lexes as the Follows keyword and leaves the "*". */
  lemma FollowsStarSplits(rest: string)
    ensures NextKeywordToken("Follows*" + rest) == Ok((Token("Follows", KwFollows), "*" + rest))
  {
    var t := "Follows*" + rest;
    assert SL.SkipWs(t) == t;
    assert !StartsWith(t, "Next") && !StartsWith(t, "Uses") && !StartsWith(t, "Calls")
      && !StartsWith(t, "Parent") by {
      assert t[0] == 'F' && t[1] == 'o';
    }
    assert StartsWith(t, "Follows") && t[7..] == "*" + rest;
    assert FirstKeyword(t, 0) == Some(4);
  }

  /** A keyword directly followed by a letter is rejected. */
  lemma KeywordThenLetter(s: string)
    requires FirstKeyword(SL.SkipWs(s), 0).Some?
    requires var t := SL.SkipWs(s); var kw := Keywords[FirstKeyword(t, 0).value].0;
             |t| > |kw| && SL.IsLetter(t[|kw|])
    ensures NextKeywordToken(s).Err?
  {
  }

  // ------------------------------------------------------- starred keywords first

  /** The first starred keyword (indices 7 to 11 of Keywords) that t starts with. */
  function FirstStarred(t: string, from: nat): (r: Option<nat>)
    requires 7 <= from <= 12
    ensures r.Some? ==> from <= r.value < 12 && StartsWith(t, Keywords[r.value].0)
    ensures r.None? ==> forall j :: from <= j < 12 ==> !StartsWith(t, Keywords[j].0)
    decreases 12 - from
  {
    if from == 12 then None
    else if StartsWith(t, Keywords[from].0) then Some(from)
    else FirstStarred(t, from + 1)
  }

  /** getNextKeywordToken as evidently intended: a starred keyword is tried before the
   *  keyword it extends, so "Follows*" is one KW_FollowsStar token. */
  function NextKeywordTokenStarFirst(s: string): (r: Result<(Token, string)>)
    ensures r.Ok? && r.value.0.kind !in {KwNextStar, KwCallsStar, KwParentStar, KwFollowsStar, KwAffectsStar}
            ==> r == NextKeywordToken(s)
  {
    var t := SL.SkipWs(s);
    match FirstStarred(t, 7)
    case None => NextKeywordToken(s)
    case Some(i) =>
      var (kw, tt) := Keywords[i];
      var rest := t[|kw|..];
      if |rest| > 0 && SL.IsLetter(rest[0]) then Err("unexpected '" + [rest[0]] + "' after keyword")
      else Ok((Token(kw, tt), rest))
  }

  /** Every starred keyword not followed by a letter is lexed as itself by the corrected
   *  order, while the order as written splits it (FollowsStarSplits). */
  lemma StarKeywordsReachable(i: nat, rest: string)
    requires 7 <= i < 12
    requires |rest| == 0 || !SL.IsLetter(rest[0])
    ensures NextKeywordTokenStarFirst(Keywords[i].0 + rest) == Ok((Token(Keywords[i].0, Keywords[i].1), rest))
  {
    var kw := Keywords[i].0;
    var t := kw + rest;
    assert t[0] == kw[0];
    assert SL.SkipWs(t) == t;
    assert t[..|kw|] == kw && t[|kw|..] == rest;
    forall j | 7 <= j < i
      ensures !StartsWith(t, Keywords[j].0)
    {
      assert Keywords[j].0[0] != kw[0];
    }
  }
}
