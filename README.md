# A verified model of the Team34 SIMPLE program analyser

The Team34 analyser reads a program in SIMPLE, a small teaching language. It builds a program
knowledge base (PKB) about that program, then answers queries written in PQL, a query language
over the program's statements, procedures and variables. A Python harness runs the analyser over
folders of test fixtures and tallies its XML reports.

This project models the core of that system in Dafny, one module per source file, and proves
what each part promises.

- **Harness.** `test_runner.dfy` pairs query files with source files, names the reports and
  walks the folder tree. `result_parser.dfy` and `parse_result_xml.dfy` count verdicts and find
  duplicate answers. `report.dfy` holds what the two report parsers share.
- **SIMPLE front end.**
  - `simple_lexer.dfy`: the tokenizer.
  - `simple_parser.dfy`: the precedence-climbing recursive descent.
  - `simple_parser_facts.dfy`: its error conditions, precedence and associativity.
  - `simple_stringify.dfy`: the compact printer.
  - `simple_roundtrip.dfy`: parsing what the printer prints gives the tree back.
  - `pattern_matching.dfy`: exact and partial matching of expression trees.
- **PKB.**
  - `call_graph.dfy`: cycle and missing-callee detection.
  - `cfg.dfy`: the adjacency matrix and its in-place Floyd-Warshall closure.
  - `pkb.dfy` and `variable.dfy`: the keyed lookups and the entity filters.
  - The `extractor_*.dfy` files: the design extractor. They cover pre-order numbering, Follows
    and Parent with their transitive sets, uses/modifies propagation and `processProgram`.
- **PQL front end.**
  - `pql_lexer.dfy`: the tokenizer.
  - `pql_parser.dfy`: the query parser.
  - `pql_ast.dfy`: the tagged references and the declaration list.
  - `pql_stringify.dfy`: the printers.
  - `decimal.dfy`: decimal text of numbers.
- **PQL evaluation.**
  - `eval_table.dfy`: entries, domains and the table of domains and joins.
  - `relation_abstractor.dfy`: the generic rule for the nine argument shapes.
  - `follows_calls.dfy`: the Follows, Follows*, Calls and Calls* configurations.
  - `uses_modifies.dfy`: the Uses/Modifies rules.
  - `pattern_eval.dfy` and `with_eval.dfy`: the pattern and `with` rules.
  - `solver.dfy`: the row/table structure used for merging.
- **Arena.** `arena.dfy` is the bump allocator's chunk list.

Thrown exceptions are `Err` results of the `Result` type in `wrappers.dfy`. Objects whose fields
the source updates in place are classes:
- the PKB, its call graph and its CFG matrix;
- the PQL declaration list and the query table;
- the solver's tables;
- the report parsers' counters;
- the arena.

Loops over them are methods, each proved equal to a specification function or to a stated new
state. The pure parts are functions with lemmas about them.

## Model

| member | source | states |
|---|---|---|
| `Report.VerdictPartition` | Team34/Tests34/result_parser.py:39-44 | every query lands in exactly one of the failed/passed lists, and it is failed exactly when it has a `failed` child |
| `Report.SplitSpec` | Team34/Tests34/result_parser.py:60 | `str.split(",")` yields one piece more than there are commas, no piece holds a comma, and joining the pieces gives back the text |
| `Report.ParseArgsSpec` | Team34/Tests34/result_parser.py:90-104 | the arguments are rejected exactly when nothing follows an optional leading "-q"; only a first-position "-q" makes the run quiet |
| `ResultParser.GetDupes` | Team34/Tests34/result_parser.py:12-20 | the result is exactly the set of elements occurring at least twice, and is empty exactly when no element repeats |
| `ResultParser.QueryWarningsSpec` | Team34/Tests34/result_parser.py:46-64 | a query raises at most one warning, always one when `correct` is absent, and none when its answers repeat no element |
| `ResultParser.CheckAnswer` | Team34/Tests34/result_parser.py:46-64 | the warning printed for one query: exception / no correct result when `correct` is missing, nothing for an empty `correct`, otherwise the repeated answers |
| `ResultParser.Results.constructor` | Team34/Tests34/result_parser.py:7-10 | both dictionaries start empty and both counters at zero |
| `ResultParser.Results.ParseOne` | Team34/Tests34/result_parser.py:23-64 | the file's lists are replaced by the passed/failed ids in document order, the counters grow by their lengths (so a re-parse double-counts), and warnings touch neither |
| `ResultParser.Results.Count` | Team34/Tests34/result_parser.py:39-44 | one query moves exactly one counter by one: the failed count when it has a `failed` child, the passed count otherwise, and leaves both dictionaries alone |
| `ResultParser.Results.Run` | Team34/Tests34/result_parser.py:90-124 | bad arguments exit with 1 and change nothing; otherwise the failures of every input are added up and the status is num_failed unless "-q" came first |
| `ParseResultXml.RepeatOccurrencesCount` | Team34/Tests34/parse_result_xml.py:12-20 | in the list-variant result an element seen k times occurs k-1 times |
| `ParseResultXml.RepeatOccurrencesEmpty` | Team34/Tests34/parse_result_xml.py:12-20 | the list-variant result is empty exactly when no element repeats |
| `ParseResultXml.GetDupes` | Team34/Tests34/parse_result_xml.py:12-20 | the loop returns the repeated occurrences in input order |
| `ParseResultXml.ReachedSpec` | Team34/Tests34/parse_result_xml.py:35-48 | parse_one gets through every query when all have a `correct` child, and otherwise stops at the first one without it |
| `ParseResultXml.CheckAnswer` | Team34/Tests34/parse_result_xml.py:46-55 | a `correct` child without text is skipped; otherwise the repeated occurrences of the split answer are reported |
| `ParseResultXml.Results.constructor` | Team34/Tests34/parse_result_xml.py:7-10 | both dictionaries start empty and both counters at zero |
| `ParseResultXml.Results.ParseOne` | Team34/Tests34/parse_result_xml.py:23-55 | fails exactly when some query lacks `correct`; the lists and counters reflect the queries reached, including the one that raised, with exactly one counter moving per query |
| `ParseResultXml.Results.Count` | Team34/Tests34/parse_result_xml.py:39-44 | one query moves exactly one counter by one: the failed count when it has a `failed` child, the passed count otherwise, and leaves both dictionaries alone |
| `ParseResultXml.Results.Store` | Team34/Tests34/parse_result_xml.py:31-43 | the file's entries in the passed and failed dictionaries become the given lists, every other file's entries and both counters stay as they were |
| `ParseResultXml.Results.Run` | Team34/Tests34/parse_result_xml.py:64-98 | bad arguments or a raising file exit with 1; otherwise the failures are added up and the status is num_failed unless "-q" came first |
| `TestRunner.SourcePathsMembership` | Team34/Tests34/test_runner.py:23-32 | a path is a source exactly when it joins a listed file ending ".simple" or "_source.txt" whose joined path does not contain "numbered" |
| `TestRunner.FindSourceFiles` | Team34/Tests34/test_runner.py:23-32 | the loop collects the source paths in listing order, never more than the listing holds |
| `TestRunner.MatchingSourceSpec` | Team34/Tests34/test_runner.py:34-40 | a source name is derived exactly for "_queries.txt" and ".query" names; "<stem>_queries.txt" gives "<stem>_source.txt" and "<stem>.query" gives "<stem>.simple" |
| `TestRunner.MatchingSourceInjective` | Team34/Tests34/test_runner.py:34-40 | two different query names never derive the same source name |
| `TestRunner.SourceFileIsNoQuery` | Team34/Tests34/test_runner.py:54-55 | a "_source.txt" file is never a query candidate |
| `TestRunner.FolderPairsSpec` | Team34/Tests34/test_runner.py:52-61 | only query files are paired; with one source every query is paired with it in listing order; otherwise each query with a derivable name is paired with that name, whether or not it is among the sources |
| `TestRunner.ReportPathSpec` | Team34/Tests34/test_runner.py:9-17 | for a "<stem>.txt" query the report is folder/"output-<stem>.xml" |
| `TestRunner.ReportPathOfDotQuery` | Team34/Tests34/test_runner.py:16-17 | dropping four characters turns "a.query" into the report name "output-a.q.xml" |
| `TestRunner.RunTestsInFolder` | Team34/Tests34/test_runner.py:42-65 | no runs when the folder has no source; otherwise one autotester command per collected pair, in collection order |
| `TestRunner.RunChildren` | Team34/Tests34/test_runner.py:77-80 | every immediate child of a non-leaf is added to `seen` and run, in order, and runs stay distinct |
| `TestRunner.RunTests` | Team34/Tests34/test_runner.py:68-80 | the folders run are those of the reference walk, and in a well-formed walk no directory is run twice |
| `TestRunner.MatchingSource` | Team34/Tests34/test_runner.py:34-40 | the source name derived from a query name; `TestRunner.MatchingSourceSpec` and `TestRunner.MatchingSourceInjective` state when it exists and that it is injective |
| `TestRunner.FolderPairs` | Team34/Tests34/test_runner.py:52-61 | the (source, query) pairs of a folder; `TestRunner.FolderPairsSpec` states which queries are paired and with which source |
| `TestRunner.AutotesterCommand` | Team34/Tests34/test_runner.py:9-20 | the paths handed to the autotester; `TestRunner.ReportPathSpec` and `TestRunner.ReportPathOfDotQuery` state the report path |
| `SimpleLexer.SkipWsSpec` | Team34/Code34/src/spa/src/simple/lexer.cpp:11-15 | exactly the maximal prefix of '\n', '\r', '\t' and ' ' is removed: what is left is a suffix that does not start with whitespace |
| `SimpleLexer.EatWhitespace` | Team34/Code34/src/spa/src/simple/lexer.cpp:11-15 | the counting loop leaves the view without its whitespace prefix |
| `SimpleLexer.AlnumRunSpec` | Team34/Code34/src/spa/src/simple/lexer.cpp:42-44 | the identifier scan covers only letters and digits and stops at the end or at the first other character |
| `SimpleLexer.DigitRunSpec` | Team34/Code34/src/spa/src/simple/lexer.cpp:50-52 | the number scan covers only digits and stops at the end or at the first non-digit |
| `SimpleLexer.NextToken` | Team34/Code34/src/spa/src/simple/lexer.cpp:32-112 | the stream never grows, and it strictly shrinks for every token but EndOfFile |
| `SimpleLexer.LexAt` | Team34/Code34/src/spa/src/simple/lexer.cpp:36-111 | same progress guarantee for the lexing step after the whitespace |
| `SimpleLexer.NextTokenConsumes` | Team34/Code34/src/spa/src/simple/lexer.cpp:27-58 | the token text is a prefix of the stream after whitespace, the stream advances by exactly its length, and only EndOfFile has empty text |
| `SimpleLexer.LexAtSpec` | Team34/Code34/src/spa/src/simple/lexer.cpp:36-111 | the token text is a prefix of the input and the rest is what follows it |
| `SimpleLexer.PeekToken` | Team34/Code34/src/spa/src/simple/lexer.cpp:27-30 | peeking fails exactly when getNextToken fails and otherwise yields the same token |
| `SimpleLexer.GetNextToken` | Team34/Code34/src/spa/src/simple/lexer.cpp:32-112 | the imperative lexer (whitespace loop, then the scanning loops) computes exactly NextToken |
| `SimpleLexer.LexText` | Team34/Code34/src/spa/src/simple/lexer.cpp:36-111 | the scanning loops, bounded by the view's length, compute exactly LexAt |
| `SimpleLexer.PeekNextToken` | Team34/Code34/src/spa/src/simple/lexer.cpp:27-30 | lexing a copy returns the peeked token and consumes nothing |
| `SimpleLexer.SkipLeadingSpace` | Team34/Code34/src/spa/src/simple/lexer.cpp:34 | a leading space changes neither the token nor the rest |
| `SimpleLexer.LexName` | Team34/Code34/src/spa/src/simple/lexer.cpp:40-47 | a letter followed by letters and digits, then a non-alphanumeric, lexes as exactly that identifier |
| `SimpleLexer.LexNumeral` | Team34/Code34/src/spa/src/simple/lexer.cpp:48-58 | a numeral followed by a non-digit lexes as exactly that number (so "100aaa000bbb" gives "100" first) |
| `SimpleLexer.LexSingle` | Team34/Code34/src/spa/src/simple/lexer.cpp:84-111 | a one-character token that does not begin a two-character operator lexes alone with its table type |
| `SimpleLexer.LexDouble` | Team34/Code34/src/spa/src/simple/lexer.cpp:60-83 | >=, <=, !=, ==, && and || are recognised before their one-character prefixes |
| `SimpleLexer.LeadingZeroRejected` | Team34/Code34/src/spa/src/simple/lexer.cpp:54-56 | a multi-digit number starting with '0' is rejected |
| `SimpleLexer.EndOfFileSpec` | Team34/Code34/src/spa/src/simple/lexer.cpp:36-39 | EndOfFile comes exactly for input that is empty after whitespace or starts with NUL there, and its text is empty |
| `SimpleLexer.SpaceSeparates` | Team34/Code34/src/spa/src/simple/lexer.cpp:60-111 | a space ends a one-character token, so "> =" lexes as '>' then '=' |
| `SimpleLexer.InvalidCharacter` | Team34/Code34/src/spa/src/simple/lexer.cpp:106-107 | a character outside the token table makes the lexer fail |
| `SimpleParser.ParsePrimary` | Team34/Code34/src/spa/src/simple/parser.cpp:61-94 | a successful primary consumes at least one character of the stream |
| `SimpleParser.ParseRhs` | Team34/Code34/src/spa/src/simple/parser.cpp:96-126 | precedence climbing never grows the stream it leaves behind |
| `SimpleParser.ParseExpr` | Team34/Code34/src/spa/src/simple/parser.cpp:128-131 | a successful expression consumes at least one character |
| `SimpleParser.ParseBinaryCond` | Team34/Code34/src/spa/src/simple/parser.cpp:138-163 | a successful `&&`/`\|\|` continuation consumes input |
| `SimpleParser.ParseRelational` | Team34/Code34/src/spa/src/simple/parser.cpp:167-195 | a successful comparison consumes input |
| `SimpleParser.ParseCond` | Team34/Code34/src/spa/src/simple/parser.cpp:200-289 | a successful conditional expression consumes input, at every parenthesis nesting |
| `SimpleParser.ParseNot` | Team34/Code34/src/spa/src/simple/parser.cpp:198-212 | the `!(...)` branch consumes input when it succeeds |
| `SimpleParser.ParseParenCond` | Team34/Code34/src/spa/src/simple/parser.cpp:213-245 | the parenthesised branch consumes input when it succeeds |
| `SimpleParser.ParseCondTail` | Team34/Code34/src/spa/src/simple/parser.cpp:247-275 | returning to the enclosing parenthesis, comparing or joining never grows the stream |
| `SimpleParser.ParseStmtList` | Team34/Code34/src/spa/src/simple/parser.cpp:292-315 | a successful statement list consumes input |
| `SimpleParser.ParseStmts` | Team34/Code34/src/spa/src/simple/parser.cpp:297-306 | the statement loop never grows the stream |
| `SimpleParser.ExpectSemicolon` | Team34/Code34/src/spa/src/simple/parser.cpp:359-366 | a semicolon check that passes consumes the semicolon |
| `SimpleParser.ParseIf` | Team34/Code34/src/spa/src/simple/parser.cpp:317-339 | a successful `if` consumes input |
| `SimpleParser.ParseWhile` | Team34/Code34/src/spa/src/simple/parser.cpp:341-355 | a successful `while` consumes input |
| `SimpleParser.ParseStmt` | Team34/Code34/src/spa/src/simple/parser.cpp:357-431 | a successful statement consumes input |
| `SimpleParser.ParseProcedure` | Team34/Code34/src/spa/src/simple/parser.cpp:433-448 | a successful procedure consumes input |
| `SimpleParser.ProceduresStep` | Team34/Code34/src/spa/src/simple/parser.cpp:450-460 | one round of the program loop: a lexer error or a procedure error ends it with that error, end of input ends it with no more procedures, and otherwise one procedure is prepended to the rest |
| `SimpleParser.ParseProgram` | Team34/Code34/src/spa/src/simple/parser.cpp:450-460 | the loop returns exactly the procedures (or the first error) of the recursive definition ParseProcedures |
| `SimpleRoundTrip.ExprRoundTrip` | Team34/Code34/src/spa/src/simple/parser.cpp:61-131 | the compact text of any well-formed arithmetic expression parses back to the same tree, whatever operand-ending text follows |
| `SimpleRoundTrip.ParseExpressionRoundTrip` | Team34/Code34/src/spa/src/simple/parser.cpp:462-472 | parseExpression inverts the printer on every well-formed arithmetic expression |
| `SimpleRoundTrip.CondRoundTrip` | Team34/Code34/src/spa/src/simple/parser.cpp:138-289 | the printed inside of any well-formed condition (comparison, `!`, `&&`, `\|\|`) parses back to the same tree at every nesting depth |
| `SimpleRoundTrip.StmtRoundTrip` | Team34/Code34/src/spa/src/simple/parser.cpp:357-431 | the compact text of any well-formed statement parses back to the same statement, whatever follows |
| `SimpleRoundTrip.ListRoundTrip` | Team34/Code34/src/spa/src/simple/parser.cpp:292-315 | the compact text of a non-empty well-formed statement list parses back to the same list |
| `SimpleRoundTrip.ProcedureRoundTrip` | Team34/Code34/src/spa/src/simple/parser.cpp:433-448 | a printed procedure parses back to the same procedure, and its first token is `procedure` |
| `SimpleRoundTrip.ProgramRoundTrip` | Team34/Code34/src/spa/src/simple/parser.cpp:450-460 | parseProgram on the compact text of any well-formed program returns that program |
| `SimpleRoundTrip.PrintAfterParse` | Team34/Code34/src/spa/src/simple/stringify.cpp:161-179 | compact program text is a fixed point of parse-then-print |
| `SimpleParserFacts.PrecedenceSpec` | Team34/Code34/src/spa/src/simple/parser.cpp:42-58 | `+`/`-` have precedence 1, `*`/`/`/`%` precedence 2, and every other token -1 |
| `SimpleParserFacts.ThreeOperands` | Team34/Code34/src/spa/src/simple/parser.cpp:96-126 | for any numerals x, y, z and operators c1, c2, "x c1 y c2 z" groups to the left when c1 binds at least as tightly as c2, and to the right otherwise |
| `SimpleParserFacts.LeftAssociativity` | Team34/Code34/src/unit_testing/src/simple/test_parser.cpp:66-73 | "1-2-3" parses as ((1 - 2) - 3): equal precedence groups to the left |
| `SimpleParserFacts.MultiplicationBindsTighter` | Team34/Code34/src/unit_testing/src/simple/test_parser.cpp:75-79 | "1+2*3" parses as (1 + (2 * 3)) and "1*2+3" as ((1 * 2) + 3) |
| `SimpleParserFacts.TrailingTokenRejected` | Team34/Code34/src/spa/src/simple/parser.cpp:462-472 | a numeral followed by " < ..." is rejected with "unexpected token '<' after expression" |
| `SimpleParserFacts.StmtListNonEmpty` | Team34/Code34/src/spa/src/simple/parser.cpp:311-312 | a statement list that parses holds at least one statement |
| `SimpleParserFacts.EmptyListRejected` | Team34/Code34/src/spa/src/simple/parser.cpp:311-312 | "{}" is rejected with "expected at least one statement between '{' and '}'" |
| `SimpleParserFacts.UnclosedStatements` | Team34/Code34/src/spa/src/simple/parser.cpp:297-306 | well-formed statements that run into the end of input are rejected with "unexpected end of file (expected '}')" |
| `SimpleParserFacts.UnclosedList` | Team34/Code34/src/spa/src/simple/parser.cpp:292-315 | a statement list missing its '}' is rejected with the end-of-file error |
| `SimpleParserFacts.KeywordAsAssignmentTarget` | Team34/Code34/src/spa/src/simple/parser.cpp:368-375 | `read`, `print`, `call`, `if` and `while` followed by '=' are the target of an assignment |
| `SimpleParserFacts.IfWithoutElse` | Team34/Code34/src/spa/src/simple/parser.cpp:333-335 | any well-formed `if` whose then-list is followed by a token other than `else` is rejected with "'else' clause is mandatory" |
| `SimpleParserFacts.ChainedRelationalRejected` | Team34/Code34/src/spa/src/simple/parser.cpp:258-264 | a parenthesised comparison followed by another relational operator is rejected with "relational operators cannot be chained" |
| `PatternMatching.ExactMatchIsEquality` | Team34/Code34/src/spa/src/simple/pattern_matching.cpp:5-27 | an exact match holds exactly when the two trees are equal and hold no unary node |
| `PatternMatching.PartialMatchIsSearch` | Team34/Code34/src/spa/src/simple/pattern_matching.cpp:29-38 | a partial match holds exactly when the unary-free pattern is the tree or a subtree reached through binary nodes |
| `PatternMatching.ExactImpliesPartial` | Team34/Code34/src/spa/src/simple/pattern_matching.cpp:29-32 | every exact match is a partial match |
| `PatternMatching.PartialStopsAtUnary` | Team34/Code34/src/spa/src/simple/pattern_matching.cpp:34-37 | nothing partially matches a unary node: the search does not descend into one |
| `PatternMatching.ExactMatchReflexive` | Team34/Code34/src/spa/src/simple/pattern_matching.cpp:5-27 | every unary-free tree matches itself exactly |
| `PatternMatching.LeftAssociationHidesSuffix` | Team34/Code34/src/spa/src/simple/pattern_matching.cpp:29-38 | in ((x + y) + z) the pattern "x + y" is found and "y + z" is not |
| `SimpleAst.IsRelational` | Team34/Code34/src/spa/src/simple/stringify.cpp:176-179 | an operator is relational exactly when it is one of `<`, `>`, `>=`, `<=`, `==`, `!=`; `SimpleRoundTrip.OpKindFacts` ties each to the token the lexer gives it |
| `SimpleAst.IsConditional` | Team34/Code34/src/spa/src/simple/stringify.cpp:181-184 | an operator is conditional exactly when it is `&&` or `||` |
| `SimpleStringify.ParenthesiseConditional` | Team34/Code34/src/spa/src/simple/stringify.cpp:20-27 | a conditional or non-binary operand is printed in parentheses, any other binary operand bare; `SimpleRoundTrip.ParenOfCond` shows the parenthesised form parses back |
| `SimpleStringify.ExprToString` | Team34/Code34/src/spa/src/simple/stringify.cpp:29-60 | arithmetic is printed fully parenthesised and conditions with their operands parenthesised as needed, so that `SimpleRoundTrip.ParseExpressionRoundTrip` and `SimpleRoundTrip.CondRoundTrip` read every well-formed expression back |
| `SimpleStringify.StmtToString` | Team34/Code34/src/spa/src/simple/stringify.cpp:85-159 | the compact form of each statement kind, which `SimpleRoundTrip.StmtRoundTrip` parses back to the same statement |
| `SimpleStringify.StmtListToString` | Team34/Code34/src/spa/src/simple/stringify.cpp:65-72 | the compact statements between braces, which `SimpleRoundTrip.ListRoundTrip` parses back |
| `SimpleStringify.ProcedureToString` | Team34/Code34/src/spa/src/simple/stringify.cpp:161-171 | "procedure", the name and the braced body, which `SimpleRoundTrip.ProcedureRoundTrip` parses back |
| `SimpleStringify.ProgramToString` | Team34/Code34/src/spa/src/simple/stringify.cpp:173-179 | the procedures printed one after another, which `SimpleRoundTrip.ProgramRoundTrip` parses back to the same program and `SimpleRoundTrip.PrintAfterParse` prints again to the same text |
| `SimpleParser.Precedence` | Team34/Code34/src/spa/src/simple/parser.cpp:42-58 | the precedence table: its values are stated by `SimpleParserFacts.PrecedenceSpec` and `SimpleParserFacts.ArithPrecedence` |
| `SimpleParser.ParseExpression` | Team34/Code34/src/spa/src/simple/parser.cpp:462-472 | one expression and then the end of input; `SimpleRoundTrip.ParseExpressionRoundTrip` states it inverts the printer, and the grouping and trailing-token failures are stated in `SimpleParserFacts` |
| `SimpleParser.ParseProcedures` | Team34/Code34/src/spa/src/simple/parser.cpp:450-460 | procedures until the end of input; `SimpleRoundTrip.ProceduresRoundTrip` states it reads printed procedures back |
| `PatternMatching.ExactMatch` | Team34/Code34/src/spa/src/simple/pattern_matching.cpp:5-27 | the exact match; `PatternMatching.ExactMatchIsEquality` states it is equality of unary-free trees |
| `PatternMatching.PartialMatch` | Team34/Code34/src/spa/src/simple/pattern_matching.cpp:29-38 | the partial match; `PatternMatching.PartialMatchIsSearch` states it is a search among the subtrees reached through binary nodes |
| `PkbCallGraph.WithEdgeEdges` | Team34/Code34/src/spa/src/pkb/call_graph.cpp:9-12 | after addEdge(a, b) the edges are the old ones plus exactly a -> b |
| `PkbCallGraph.WithEdgeIdempotent` | Team34/Code34/src/spa/src/pkb/call_graph.cpp:9-12 | adding the same call twice leaves the graph as adding it once |
| `PkbCallGraph.SelfCallIsCycle` | Team34/Code34/src/spa/src/pkb/call_graph.cpp:48-66 | a procedure that calls itself forms a cycle |
| `PkbCallGraph.CycleFromPath` | Team34/Code34/src/spa/src/pkb/call_graph.cpp:18-21 | reaching a node already on the current depth-first path closes a cycle |
| `PkbCallGraph.SuccessorsSafe` | Team34/Code34/src/spa/src/pkb/call_graph.cpp:43-44 | a node all of whose callees lead to no cycle leads to no cycle itself |
| `PkbCallGraph.NoCycleLeft` | Team34/Code34/src/spa/src/pkb/call_graph.cpp:59-65 | once every edge has been pruned as leading to no cycle, the graph has no cycle |
| `PkbCallGraph.WithoutKeeps` | Team34/Code34/src/spa/src/pkb/call_graph.cpp:34-39 | erasing a pruned callee (and its caller once it has none left) keeps the search invariants and touches no other caller |
| `PkbCallGraph.FindProcedure` | Team34/Code34/src/spa/src/pkb/call_graph.cpp:74-75 | the find_if succeeds exactly when some procedure has the given name |
| `PkbCallGraph.Dfs` | Team34/Code34/src/spa/src/pkb/call_graph.cpp:15-45 | true only when the graph has a cycle; on false the start node is gone from the working copy, the visited set is as before, and no cycle is reachable from the start node |
| `PkbCallGraph.CallGraph.constructor` | Team34/Code34/src/spa/src/pkb/call_graph.cpp:9-12 | a new call graph has no edges |
| `PkbCallGraph.CallGraph.AddEdge` | Team34/Code34/src/spa/src/pkb/call_graph.cpp:9-12 | the adjacency map gains the edge a -> b and nothing else |
| `PkbCallGraph.CallGraph.CycleExists` | Team34/Code34/src/spa/src/pkb/call_graph.cpp:48-66 | true exactly when some walk of calls returns to where it started |
| `PkbCallGraph.CallGraph.MissingProc` | Team34/Code34/src/spa/src/pkb/call_graph.cpp:68-82 | returns a called name that no procedure defines, and "" exactly when every callee is defined |
| `PkbCfg.StepBounds` | Team34/Code34/src/spa/src/pkb/cfg.cpp:61-68 | one round of relaxation never increases an entry, changes one only through two finite entries, and keeps every entry a positive weight or INF |
| `PkbCfg.FwBounds` | Team34/Code34/src/spa/src/pkb/cfg.cpp:59-70 | the closure never increases an entry and keeps the range |
| `PkbCfg.StepKeepsPivot` | Team34/Code34/src/spa/src/pkb/cfg.cpp:65-67 | the round for k leaves row k and column k unchanged, so relaxing in place equals relaxing a copy |
| `PkbCfg.FwWitness` | Team34/Code34/src/spa/src/pkb/cfg.cpp:59-70 | every entry after k rounds is the weight of a walk whose inner nodes are below k |
| `PkbCfg.FwOptimal` | Team34/Code34/src/spa/src/pkb/cfg.cpp:59-70 | no walk with inner nodes below k weighs less than the entry after k rounds |
| `PkbCfg.ShortestWalks` | Team34/Code34/src/spa/src/pkb/cfg.cpp:54-71 | after all rounds each entry is the least weight of a walk between the two nodes (the diagonal the lightest cycle), finite exactly when a walk of finite weight exists |
| `PkbCfg.UnitWeight` | Team34/Code34/src/spa/src/pkb/cfg.cpp:26-31 | on a matrix of unit edges, a walk of finite weight uses only edges and weighs its number of steps |
| `PkbCfg.CFG.constructor` | Team34/Code34/src/spa/src/pkb/cfg.cpp:12-24 | a v-by-v matrix with every entry INF |
| `PkbCfg.CFG.AddEdge` | Team34/Code34/src/spa/src/pkb/cfg.cpp:26-31 | for statement numbers in 1..v, the entry of the pair becomes 1 and no other entry changes |
| `PkbCfg.CFG.ComputeDistMat` | Team34/Code34/src/spa/src/pkb/cfg.cpp:54-71 | the in-place triple loop leaves exactly the Floyd-Warshall closure of the old matrix |
| `PkbCfg.CFG.RelaxRound` | Team34/Code34/src/spa/src/pkb/cfg.cpp:61-69 | the i/j loops for one k leave exactly one round of relaxation of the matrix |
| `PkbCfg.CFG.RelaxRow` | Team34/Code34/src/spa/src/pkb/cfg.cpp:63-68 | the j loop for one i and k leaves row i as one relaxation through k of the round's starting matrix and every other row untouched, although it writes into the matrix it reads |
| `Pkb.StatementAt` | Team34/Code34/src/spa/src/pkb/pkb.cpp:20-26 | the statement lookup the knowledge base and the clause evaluators share succeeds exactly for a number between 1 and the statement count, and yields statement n at position n - 1 |
| `Pkb.ProcedureNamed` | Team34/Code34/src/spa/src/pkb/pkb.cpp:28-34 | the shared procedure lookup succeeds exactly for a known name and yields that procedure |
| `Pkb.VariableNamed` | Team34/Code34/src/spa/src/pkb/pkb.cpp:49-55 | the shared variable lookup succeeds exactly for a known name and yields that variable |
| `Pkb.ProgramKB.constructor` | Team34/Code34/src/spa/src/pkb/pkb.cpp:150-153 | the knowledge base holds the program and starts with no statements, procedures, variables or constants and every relation flag false |
| `Pkb.ProgramKB.GetStatementAt` | Team34/Code34/src/spa/src/pkb/pkb.cpp:20-26 | succeeds exactly for statement numbers 1..count, returning statement n at position n - 1; 0 and numbers past the end are out of range |
| `Pkb.ProgramKB.GetProcedureNamed` | Team34/Code34/src/spa/src/pkb/pkb.cpp:28-34 | succeeds exactly for a recorded name and returns that procedure |
| `Pkb.ProgramKB.MaybeGetProcedureNamed` | Team34/Code34/src/spa/src/pkb/pkb.cpp:70-76 | some procedure exactly for a recorded name, none (null) otherwise |
| `Pkb.ProgramKB.GetVariableNamed` | Team34/Code34/src/spa/src/pkb/pkb.cpp:49-55 | succeeds exactly for a recorded name and returns that variable |
| `Pkb.ProgramKB.MaybeGetVariableNamed` | Team34/Code34/src/spa/src/pkb/pkb.cpp:62-68 | some variable exactly for a recorded name, none otherwise |
| `Pkb.ProgramKB.AddProcedure` | Team34/Code34/src/spa/src/pkb/pkb.cpp:41-47 | a duplicate name fails and changes nothing; otherwise exactly one fresh procedure entry is added and the other tables are untouched |
| `Pkb.ProgramKB.AddConstant` | Team34/Code34/src/spa/src/pkb/pkb.cpp:79-82 | the constant set gains the value (set insertion) and nothing else changes |
| `Pkb.ProgramKB.LookupsAgree` | Team34/Code34/src/spa/src/pkb/pkb.cpp:28-76 | the null-returning lookups return null exactly when the throwing lookups fail, and the same entry otherwise |
| `PkbVariable.DesignEntityMatches` | Team34/Code34/src/spa/src/pkb/variable.cpp:11-41 | fails exactly for an entity outside the enumerated cases |
| `PkbVariable.MatchesByGroup` | Team34/Code34/src/spa/src/pkb/variable.cpp:15-36 | stmt and prog_line match every statement, read/print/call/while/if/assign match their own kind of statement, variable/constant/procedure match none |
| `PkbVariable.FilterStmts` | Team34/Code34/src/spa/src/pkb/variable.cpp:48-53 | the loop fails exactly when the entity is invalid and there is a statement to test, and otherwise returns the numbers of exactly the matching statements |
| `PkbVariable.GetUsingStmtNumsFiltered` | Team34/Code34/src/spa/src/pkb/variable.cpp:43-54 | procedure is refused; any valid entity gives the numbers of the using statements that match it |
| `PkbVariable.GetModifyingStmtNumsFiltered` | Team34/Code34/src/spa/src/pkb/variable.cpp:56-67 | procedure is refused; any valid entity gives the numbers of the modifying statements that match it |
| `PkbVariable.FilteredByGroup` | Team34/Code34/src/spa/src/pkb/variable.cpp:11-67 | a filter keeps a subset of the recorded statements: all of them for stmt/prog_line, none for variable/constant/procedure, and exactly those of the entity's kind otherwise |
| `Pkb.ProgramKB.FollowsRelationExists` | Team34/Code34/src/spa/src/pkb/pkb.cpp:109-112 | returns the knowledge base's Follows flag; the value the extractor computes for it is stated in `DesignExtractor.Extraction` |
| `Pkb.ProgramKB.ParentRelationExists` | Team34/Code34/src/spa/src/pkb/pkb.cpp:114-117 | returns the knowledge base's Parent flag; the value the extractor computes for it is stated in `DesignExtractor.Extraction` |
| `Pkb.ProgramKB.CallsRelationExists` | Team34/Code34/src/spa/src/pkb/pkb.cpp:119-122 | returns the knowledge base's Calls flag |
| `Pkb.ProgramKB.NextRelationExists` | Team34/Code34/src/spa/src/pkb/pkb.cpp:124-127 | returns a flag field that stands for the CFG's answer |
| `Pkb.ProgramKB.AffectsRelationExists` | Team34/Code34/src/spa/src/pkb/pkb.cpp:129-132 | returns a flag field that stands for the CFG's answer |
| `Pkb.ProgramKB.NextBipRelationExists` | Team34/Code34/src/spa/src/pkb/pkb.cpp:134-137 | returns a flag field that stands for the CFG's answer |
| `Pkb.ProgramKB.AffectsBipRelationExists` | Team34/Code34/src/spa/src/pkb/pkb.cpp:139-142 | returns a flag field that stands for the CFG's answer |
| `ExtractorTree.Ids` | Team34/Code34/src/spa/src/pkb/design_extractor.cpp:27-34 | the numbers of a list of numbered statements, position by position |
| `ExtractorTree.NumberConsecutive` | Team34/Code34/src/spa/src/pkb/design_extractor.cpp:27-50 | collectStmt numbers a statement and everything nested in it with consecutive numbers from the next free one, in pre-order, one per statement |
| `ExtractorTree.NumberListConsecutive` | Team34/Code34/src/spa/src/pkb/design_extractor.cpp:52-56 | collectStmtList numbers a whole list consecutively in pre-order |
| `ExtractorTree.NumberListUnique` | Team34/Code34/src/spa/src/pkb/design_extractor.cpp:27-56 | no two statements get the same number, and the numbers used are exactly next .. next + size - 1 |
| `ExtractorTree.NumberPlain` | Team34/Code34/src/spa/src/pkb/design_extractor.cpp:27-50 | numbering changes nothing in the tree but the numbers |
| `ExtractorTree.NumberListPlain` | Team34/Code34/src/spa/src/pkb/design_extractor.cpp:52-56 | numbering a list changes nothing in it but the numbers |
| `ExtractorTree.NumberedWalk` | Team34/Code34/src/spa/src/pkb/design_extractor.cpp:27-56 | the statements pushed onto the statement vector are the pre-order walk of the list |
| `ExtractorFollows.FollowsAt` | Team34/Code34/src/spa/src/pkb/design_extractor.cpp:114-136 | the record of the statement at index i carries that statement's number |
| `ExtractorFollows.FollowsRecordsDescribe` | Team34/Code34/src/spa/src/pkb/design_extractor.cpp:107-148 | processFollows pushes exactly one record per statement, in pre-order, each carrying its statement's number |
| `ExtractorFollows.AfterUnfolds` | Team34/Code34/src/spa/src/pkb/design_extractor.cpp:118-126 | a statement's later siblings are its direct follower plus that follower's later siblings; the last statement has neither |
| `ExtractorFollows.BeforeUnfolds` | Team34/Code34/src/spa/src/pkb/design_extractor.cpp:128-136 | a statement's earlier siblings are its direct predecessor plus that one's earlier siblings; the first has neither |
| `ExtractorFollows.AfterBeforeAgree` | Team34/Code34/src/spa/src/pkb/design_extractor.cpp:107-136 | with distinct numbers, j is after i exactly when i is before j and i < j, and j directly follows i exactly when j = i + 1 |
| `ExtractorFollows.HasFollowsRecords` | Team34/Code34/src/spa/src/pkb/design_extractor.cpp:107-148 | the follows flag is set exactly when some statement list, nested ones included, holds two statements |
| `ExtractorParents.PlacementsChained` | Team34/Code34/src/spa/src/pkb/design_extractor.cpp:247-297 | a statement's ancestors are its direct parent plus the parent's ancestors, and the statements of a list directly inside a container have that container as parent |
| `ExtractorParents.BodyAncestors` | Team34/Code34/src/spa/src/pkb/design_extractor.cpp:247-297 | in a procedure body a top-level statement has no ancestors, and any other has a parent recorded before it whose ancestors plus itself are its ancestors |
| `ExtractorParents.PlacementsPlace` | Team34/Code34/src/spa/src/pkb/design_extractor.cpp:247-297 | processAncestors records one placement per statement, in pre-order |
| `ExtractorParents.DescendantsUnfold` | Team34/Code34/src/spa/src/pkb/design_extractor.cpp:299-347 | a container's descendants are its direct children plus all their descendants |
| `ExtractorParents.SubtreeIds` | Team34/Code34/src/spa/src/pkb/design_extractor.cpp:299-347 | the numbers in a statement's subtree are its own number and its descendants' |
| `ExtractorParents.AllIdsSnoc` | Team34/Code34/src/spa/src/pkb/design_extractor.cpp:299-347 | adding a statement to a list adds its number and its descendants' numbers |
| `ExtractorUses.AddUses` | Team34/Code34/src/spa/src/pkb/design_extractor.cpp:351-359 | recording uses keeps the statement count and the set of procedures |
| `ExtractorUses.AddModifies` | Team34/Code34/src/spa/src/pkb/design_extractor.cpp:395-404 | recording modifies keeps the statement count and the set of procedures |
| `ExtractorUses.AddCall` | Team34/Code34/src/spa/src/pkb/design_extractor.cpp:424-428 | recording a call keeps the statement count and gives both caller and callee a procedure entry |
| `ExtractorUses.ExprPassUses` | Team34/Code34/src/spa/src/pkb/design_extractor.cpp:349-377 | processExpr records exactly the variables the expression reads, as used by the statement and its procedure |
| `ExtractorUses.StmtPassGrows` | Team34/Code34/src/spa/src/pkb/design_extractor.cpp:380-433 | processStmt applies each statement's own update in post-order: bodies of a container first, then its condition |
| `ExtractorUses.ListPassGrows` | Team34/Code34/src/spa/src/pkb/design_extractor.cpp:435-439 | processStmtList is the per-statement updates in the order processStmt finishes them |
| `ExtractorUses.AddUsesTwice` | Team34/Code34/src/spa/src/pkb/design_extractor.cpp:349-377 | recording two sets of used variables one after another records their union |
| `ExtractorUses.GrowStmt` | Team34/Code34/src/spa/src/pkb/design_extractor.cpp:380-439 | after the first pass each statement record holds exactly the variables that statement uses and modifies by itself |
| `ExtractorUses.GrowProc` | Team34/Code34/src/spa/src/pkb/design_extractor.cpp:380-439 | after the first pass a procedure record holds exactly what its statements use, modify and call by themselves, and callees record their callers |
| `ExtractorUses.GrowVar` | Team34/Code34/src/spa/src/pkb/design_extractor.cpp:380-439 | after the first pass a variable record names exactly the statements (and the procedure) that use or modify it by themselves |
| `ExtractorUses.GrowProcKeys` | Team34/Code34/src/spa/src/pkb/design_extractor.cpp:424-428 | the procedures with a record are the old ones plus every callee named |
| `ExtractorUses.GrowVarKeys` | Team34/Code34/src/spa/src/pkb/design_extractor.cpp:353-415 | the variables with a record are the old ones plus every variable used or modified |
| `ExtractorReprocess.UnionUsed` | Team34/Code34/src/spa/src/pkb/design_extractor.cpp:451-456 | the union of what the children use: contains each child's set and nothing else |
| `ExtractorReprocess.UnionModified` | Team34/Code34/src/spa/src/pkb/design_extractor.cpp:451-456 | the union of what the children modify: contains each child's set and nothing else |
| `ExtractorReprocess.Mark` | Team34/Code34/src/spa/src/pkb/design_extractor.cpp:458-465 | the statement is entered in the records of exactly the variables it uses and modifies, other variable records unchanged |
| `ExtractorReprocess.ContainerStep` | Team34/Code34/src/spa/src/pkb/design_extractor.cpp:446-465 | a container's update only grows the records, rewrites no statement record but its own, and only adds to each variable's users and modifiers |
| `ExtractorReprocess.MarkGrows` | Team34/Code34/src/spa/src/pkb/design_extractor.cpp:458-465 | entering a statement in the variables' records only adds to every variable's users and modifiers |
| `ExtractorReprocess.CallStep` | Team34/Code34/src/spa/src/pkb/design_extractor.cpp:486-511 | a call statement's update only grows the records |
| `ExtractorReprocess.ReprocessStmt` | Team34/Code34/src/spa/src/pkb/design_extractor.cpp:446-511 | afterwards a container uses/modifies everything its direct children do and is entered in those variables' records; a call statement uses/modifies everything its callee does, which the calling procedure takes on |
| `ExtractorReprocess.ReprocessIf` | Team34/Code34/src/spa/src/pkb/design_extractor.cpp:446-471 | after both branches are reprocessed, the if statement uses and modifies everything each statement of either branch does and is entered in the records of those variables; the records only grow |
| `ExtractorReprocess.ReprocessWhile` | Team34/Code34/src/spa/src/pkb/design_extractor.cpp:472-490 | after the body is reprocessed, the while statement uses and modifies everything each body statement does and is entered in the records of those variables; the records only grow |
| `ExtractorReprocess.ReprocessCall` | Team34/Code34/src/spa/src/pkb/design_extractor.cpp:491-514 | the call statement uses and modifies at least what the callee does, the caller at least what the call does, and each of the callee's variables records the call and the calling procedure; the records only grow |
| `ExtractorReprocess.ReprocessList` | Team34/Code34/src/spa/src/pkb/design_extractor.cpp:442-516 | reprocessing a list only grows the records and keeps every body within the statement table; what it leaves finished is stated by `ExtractorClosure.ListClosed` for lists without calls |
| `DesignExtractor.WithEdgesEdges` | Team34/Code34/src/spa/src/pkb/design_extractor.cpp:150-169 | adding edges from a to a list of callees adds exactly those edges |
| `DesignExtractor.CallEdgesEdges` | Team34/Code34/src/spa/src/pkb/design_extractor.cpp:150-169 | the call graph has an edge x -> y exactly when procedure x contains a call to y at any depth |
| `DesignExtractor.ProcessCallGraph` | Team34/Code34/src/spa/src/pkb/design_extractor.cpp:522-525 | the loops build exactly that call graph |
| `DesignExtractor.NumberedBody` | Team34/Code34/src/spa/src/pkb/design_extractor.cpp:27-56 | numbering a body gives its pre-order statements consecutive numbers from the next free one |
| `DesignExtractor.Collect` | Team34/Code34/src/spa/src/pkb/design_extractor.cpp:532-542 | fails exactly when two procedures share a name; otherwise numbers the bodies in order, pushes one fresh record per statement in program pre-order, and enters each procedure with its body |
| `DesignExtractor.FollowsAndUses` | Team34/Code34/src/spa/src/pkb/design_extractor.cpp:544-549 | the second pass keeps every record, leaves each statement using/modifying at least what it does by itself, pushes exactly the follows records of every body, and sets the flag exactly when some list has two statements |
| `DesignExtractor.Reprocess` | Team34/Code34/src/spa/src/pkb/design_extractor.cpp:551-558 | the third pass only grows the records, records every statement's placement, sets the parent flag exactly when some statement has a parent, and builds the children and descendant maps; when no body holds a call and the bodies are numbered apart, every container of every body ends up using and modifying what its direct children do (the final state `ExtractorClosure.AllDone`) |
| `DesignExtractor.CheckCalls` | Team34/Code34/src/spa/src/pkb/design_extractor.cpp:527-530 | a cyclic call graph is rejected first; an undefined callee is rejected with its name; a graph that is acyclic with every callee defined passes |
| `ExtractorClosure.ContainerStepFrame` | Team34/Code34/src/spa/src/pkb/design_extractor.cpp:446-465 | a container's own update rewrites no statement record but its own and only adds to the variables' users and modifiers |
| `ExtractorClosure.ContainerKept` | Team34/Code34/src/spa/src/pkb/design_extractor.cpp:442-516 | a finished container (uses and modifies what its direct children do, and is entered in those variables' records) stays finished while its record and its children's are kept and the variables only grow |
| `ExtractorClosure.AllDoneKept` | Team34/Code34/src/spa/src/pkb/design_extractor.cpp:442-516 | every finished container of a list stays finished when only statements outside the list are rewritten |
| `ExtractorClosure.StmtClosed` | Team34/Code34/src/spa/src/pkb/design_extractor.cpp:444-490 | reprocessing a call-free statement with distinct numbers rewrites only the records of its own subtree, only adds to the variables, and leaves every container of the subtree, at any depth, finished |
| `ExtractorClosure.IfClosed` | Team34/Code34/src/spa/src/pkb/design_extractor.cpp:446-471 | the same for an if statement: both branches and then the if statement itself end finished |
| `ExtractorClosure.WhileClosed` | Team34/Code34/src/spa/src/pkb/design_extractor.cpp:472-490 | the same for a while statement: its body and then the loop itself end finished |
| `ExtractorClosure.ListClosed` | Team34/Code34/src/spa/src/pkb/design_extractor.cpp:442-516 | reprocessStmtList on a call-free list with distinct numbers rewrites only the list's own records, only adds to the variables, and leaves every container of the list, nested ones included, finished |
| `ExtractorClosure.NestedIncluded` | Team34/Code34/src/spa/src/pkb/design_extractor.cpp:446-490 | once every container of a subtree is finished, its root uses and modifies everything any statement nested in it, at any depth, uses and modifies |
| `ExtractorClosure.WalkNestedIncluded` | Team34/Code34/src/spa/src/pkb/design_extractor.cpp:442-516 | the same for every statement of a finished list |
| `ExtractorClosure.BodyClosed` | Team34/Code34/src/spa/src/pkb/design_extractor.cpp:551-558 | reprocessing one body of a call-free program whose bodies are numbered apart finishes that body and keeps the bodies before it finished |
| `DesignExtractor.NumberedApart` | Team34/Code34/src/spa/src/pkb/design_extractor.cpp:24-56 | numbering gives each procedure body distinct numbers and the bodies of different procedures numbers of their own |
| `DesignExtractor.NestedUsesModifies` | Team34/Code34/src/spa/src/pkb/design_extractor.cpp:518-563 | after processProgram, in a program without call statements, every statement uses and modifies everything nested in it, at any depth |
| `DesignExtractor.Build` | Team34/Code34/src/spa/src/pkb/design_extractor.cpp:532-560 | a repeated procedure name fails; otherwise every pass's facts hold together, including, for a program without call statements, the final uses/modifies closure of every container |
| `DesignExtractor.ProcessProgram` | Team34/Code34/src/spa/src/pkb/design_extractor.cpp:518-563 | cyclic calls fail with "Cyclic or recursive calls are not allowed", an undefined callee with "Procedure '…' is undefined", a duplicate name with "procedure '…' is already defined"; on success the statements are numbered 1, 2, … in pre-order and all passes' facts hold, the third pass's uses/modifies closure for programs without call statements |
| `PqlAst.DesignEntMapsInverse` | Team34/Code34/src/spa/src/pql/parser/ast.cpp:15-43 | the keyword table and the entity-name table are inverse on the eleven declarable entities, and the name of the invalid entity is no keyword |
| `PqlAst.AttrNameMapsInverse` | Team34/Code34/src/spa/src/pql/parser/ast.cpp:45-58 | the attribute-name table and its inverse agree on procName, varName, value and stmt#, and "invalid" is no attribute name |
| `PqlAst.DeclarationList.constructor` | Team34/Code34/src/spa/include/pql/parser/ast.h:36-42 | a declaration list starts empty (the default-constructed map) |
| `PqlAst.DeclarationList.GetDeclaration` | Team34/Code34/src/spa/src/pql/parser/ast.cpp:60-71 | returns a declaration exactly when the name is declared (null otherwise), and that declaration carries the name asked for |
| `PqlAst.DeclarationList.AddDeclaration` | Team34/Code34/src/spa/src/pql/parser/ast.cpp:73-78 | only for a new name (the source asserts it); afterwards the list is the old one plus the new declaration, and looking the name up finds it |
| `PqlAst.StmtRef.GetDecl` | Team34/Code34/src/spa/src/pql/parser/ast.cpp:91-97 | yields the synonym exactly for a synonym reference and fails with "StmtRef is not a Declaration" for every other kind |
| `PqlAst.StmtRef.GetId` | Team34/Code34/src/spa/src/pql/parser/ast.cpp:99-105 | yields the number exactly for a statement-number reference and fails for every other kind |
| `PqlAst.EntRef.GetDecl` | Team34/Code34/src/spa/src/pql/parser/ast.cpp:131-137 | yields the synonym exactly for a synonym reference and fails for every other kind |
| `PqlAst.EntRef.GetName` | Team34/Code34/src/spa/src/pql/parser/ast.cpp:139-145 | yields the quoted name exactly for a name reference and fails for every other kind |
| `PqlAst.Elem.GetDecl` | Team34/Code34/src/spa/src/pql/parser/ast.cpp:171-177 | yields the synonym exactly for a synonym element and fails for an attribute element |
| `PqlAst.Elem.GetAttrRef` | Team34/Code34/src/spa/src/pql/parser/ast.cpp:180-186 | yields the attribute reference exactly for an attribute element and fails for a synonym element |
| `PqlAst.ResultCl.GetTuple` | Team34/Code34/src/spa/src/pql/parser/ast.cpp:219-226 | yields the elements exactly when a tuple is selected and fails for BOOLEAN |
| `PqlAst.WithCondRef.GetStr` | Team34/Code34/src/spa/src/pql/parser/ast.cpp:228-234 | yields the text exactly for a quoted-string side and fails for the other three kinds |
| `PqlAst.WithCondRef.GetNumber` | Team34/Code34/src/spa/src/pql/parser/ast.cpp:236-242 | yields the digits exactly for a number side and fails for the other three kinds |
| `PqlAst.WithCondRef.GetAttrRef` | Team34/Code34/src/spa/src/pql/parser/ast.cpp:244-250 | yields the attribute reference exactly for an attribute side and fails for the other three kinds |
| `PqlAst.WithCondRef.GetDecl` | Team34/Code34/src/spa/src/pql/parser/ast.cpp:252-258 | yields the synonym exactly for a synonym side and fails for the other three kinds |
| `PqlLexer.EatWhitespace` | Team34/Code34/src/spa/src/pql/parser/lexer.cpp:10-19 | removes exactly the maximal prefix of spaces, tabs, newlines and carriage returns and returns how many characters it removed |
| `PqlLexer.NextToken` | Team34/Code34/src/spa/src/pql/parser/lexer.cpp:112-177 | every token but end-of-input consumes at least one character, so repeated lexing terminates |
| `PqlLexer.GetNextToken` | Team34/Code34/src/spa/src/pql/parser/lexer.cpp:112-177 | the scanning loops compute the token and the remaining view that the token function defines: end of input or NUL, identifier, number, quoted string, one of ten punctuation characters, or an error for any other character |
| `PqlLexer.LexIdent` | Team34/Code34/src/spa/src/pql/parser/lexer.cpp:120-127 | the counting loop over letters and digits yields the identifier token the token function defines and leaves the view after it |
| `PqlLexer.LexNumeral` | Team34/Code34/src/spa/src/pql/parser/lexer.cpp:128-135 | the counting loop over digits yields the number token the token function defines and leaves the view after it |
| `PqlLexer.LexQuoted` | Team34/Code34/src/spa/src/pql/parser/lexer.cpp:136-152 | the search for the closing quote yields the string token between the quotes, or the unterminated-string error when none follows, as the token function defines |
| `PqlLexer.NextTokenConsumes` | Team34/Code34/src/spa/src/pql/parser/lexer.cpp:112-177 | the token text is exactly the stream after whitespace up to where lexing resumes, with the two quotes around a string's text, and is non-empty for every token but end-of-input |
| `PqlLexer.LexString` | Team34/Code34/src/spa/src/pql/parser/lexer.cpp:136-152 | a quoted text without inner quotes is one String token holding the text between the quotes, and lexing resumes after the closing quote |
| `PqlLexer.UnterminatedString` | Team34/Code34/src/spa/src/pql/parser/lexer.cpp:136-146 | a quote with no closing quote after it is rejected |
| `PqlLexer.LexDigits` | Team34/Code34/src/spa/src/pql/parser/lexer.cpp:128-135 | a maximal run of digits, leading zeros included, is one Number token |
| `PqlLexer.LexName` | Team34/Code34/src/spa/src/pql/parser/lexer.cpp:120-127 | a letter followed by letters and digits, up to a character that cannot continue it, is one Identifier token |
| `PqlLexer.LexPunctuation` | Team34/Code34/src/spa/src/pql/parser/lexer.cpp:153-176 | each of the ten punctuation characters is a one-character token of its type, and exactly the other characters that start no token are rejected |
| `PqlLexer.GetNextKeywordToken` | Team34/Code34/src/spa/src/pql/parser/lexer.cpp:43-110 | trying the keywords in the source's order gives the first keyword the text starts with, an error when none matches, and an error when a letter follows the keyword |
| `PqlLexer.KeywordThenLetter` | Team34/Code34/src/spa/src/pql/parser/lexer.cpp:106-107 | a keyword directly followed by a letter is rejected |
| `PqlLexer.StarKeywordsShadowed` | Team34/Code34/src/spa/src/pql/parser/lexer.cpp:49-83 | no successful keyword lexing ever yields one of the five starred keyword tokens, because each starred keyword is tried after the unstarred keyword that is its prefix |
| `PqlLexer.FollowsStarSplits` | Team34/Code34/src/spa/src/pql/parser/lexer.cpp:61-80 | "Follows*" lexes as the Follows keyword and leaves the "*" in the stream |
| `PqlLexer.NextKeywordTokenStarFirst` | Team34/Code34/src/spa/src/pql/parser/lexer.cpp:43-110 | the corrected order, starred keywords first, agrees with the order as written on every input whose result is not a starred keyword |
| `PqlLexer.StarKeywordsReachable` | Team34/Code34/src/spa/src/pql/parser/lexer.cpp:70-83 | under the corrected order each of Next*, Calls*, Parent*, Follows* and Affects* not followed by a letter is lexed as its own starred token, with the rest of the stream left |
| `PqlLexer.PeekNextOneToken` | Team34/Code34/src/spa/src/pql/parser/lexer.cpp:31-34 | succeeds exactly when lexing succeeds and yields the next token without consuming it |
| `PqlLexer.PeekNextTwoTokens` | Team34/Code34/src/spa/src/pql/parser/lexer.cpp:36-41 | succeeds exactly when two tokens lex in a row and yields the first and the one after it, without consuming either |
| `Decimal.NatText` | Team34/Code34/src/spa/src/pql/eval/with.cpp:83 | the decimal text of a number is a non-empty digit string without a leading zero, one digit long exactly for numbers below ten |
| `Decimal.ValueOfText` | Team34/Code34/src/spa/src/pql/eval/with.cpp:116 | reading the decimal text of a number back gives that number |
| `Decimal.TextInjective` | Team34/Code34/src/spa/src/pql/eval/with.cpp:83 | two numbers have the same decimal text exactly when they are equal, so comparing texts compares numbers |
| `Decimal.Stoll` | Team34/Code34/src/spa/src/pql/eval/with.cpp:117 | the conversion succeeds exactly when the text starts with a digit and its leading digits denote at most 9223372036854775807 (above that std::stoll throws out_of_range), and on an all-digit text yields the number it denotes |
| `Decimal.StollOfText` | Team34/Code34/src/spa/src/pql/eval/with.cpp:116-117 | the conversion reads the decimal text of every number up to 9223372036854775807 back to that number, and fails on the text of every larger number |
| `Decimal.CanonicalText` | Team34/Code34/src/spa/src/pql/eval/with.cpp:116-117 | a digit string without a leading zero is the decimal text of its value, so a value that goes from text to number and back is unchanged |
| `PqlStringify.SortedNamesSpec` | Team34/Code34/src/spa/src/pql/parser/stringify.cpp:19-23 | the names in sorted order list every declared name exactly once, each strictly before the next in the string order |
| `PqlStringify.SortedUnique` | Team34/Code34/src/spa/src/pql/parser/stringify.cpp:23 | any arrangement of the names that is in order is the sorted one, so the printed order does not depend on the map's iteration order |
| `PqlStringify.CollectNames` | Team34/Code34/src/spa/src/pql/parser/stringify.cpp:19-21 | the copying loop fills a new array holding exactly the map's names, each once |
| `PqlStringify.SortNames` | Team34/Code34/src/spa/src/pql/parser/stringify.cpp:23 | sorting leaves the array in order and a permutation of what it held |
| `PqlStringify.PrintLines` | Team34/Code34/src/spa/src/pql/parser/stringify.cpp:25-30 | the printing loop produces the header, one line per name in the array's order, and the closing bracket |
| `PqlStringify.DeclarationListString` | Team34/Code34/src/spa/src/pql/parser/stringify.cpp:13-31 | copying, sorting and printing give exactly the text defined by the names in sorted order |
| `PqlStringify.DeclarationListLines` | Team34/Code34/src/spa/src/pql/parser/stringify.cpp:13-31 | the declaration list prints as its header, one line per declared name in increasing order naming and printing its declaration, and "]" |
| `PqlStringify.DeclarationListExample` | Team34/Code34/src/spa/src/pql/parser/stringify.cpp:13-31 | a list declaring foo and bar prints bar's line before foo's |
| `PqlStringify.DeclarationTextInjective` | Team34/Code34/src/spa/src/pql/parser/stringify.cpp:33-42 | two declarations print the same only when they have the same name and entity |
| `PqlStringify.DeclarationExample` | Team34/Code34/src/spa/src/pql/parser/stringify.cpp:33-42 | the assign declaration foo prints as "Declaration(ent:assign, name:foo)" |
| `PqlStringify.StmtRefText` | Team34/Code34/src/spa/src/pql/parser/stringify.cpp:136-154 | a statement reference prints unless it is invalid, which fails |
| `PqlStringify.StmtRefTextInjective` | Team34/Code34/src/spa/src/pql/parser/stringify.cpp:136-154 | two valid statement references print the same only when they are equal |
| `PqlStringify.StmtIdExample` | Team34/Code34/src/spa/src/pql/parser/stringify.cpp:144-145 | statement number 1 prints as "StmtId(id:1)" |
| `PqlStringify.EntRefText` | Team34/Code34/src/spa/src/pql/parser/stringify.cpp:156-174 | an entity reference prints unless it is invalid, which fails |
| `PqlStringify.EntRefTextInjective` | Team34/Code34/src/spa/src/pql/parser/stringify.cpp:156-174 | two valid entity references print the same only when they are equal |
| `PqlStringify.EntExamples` | Team34/Code34/src/spa/src/pql/parser/stringify.cpp:147-168 | a quoted name and the two wildcards print as "EntName(name:foo)", "AllEnt(name: _)" and "AllStmt(name: _)" |
| `PqlStringify.RelCondPrints` | Team34/Code34/src/spa/src/pql/parser/stringify.cpp:44-88 | a relation prints exactly when it is one of the eight relations that have a printer and both its references are valid; Calls and Calls* never print |
| `PqlStringify.FollowsTAfter` | Team34/Code34/src/spa/src/pql/parser/stringify.cpp:85-88 | Follows* prints its second reference right after the word "after", with no colon |
| `PqlStringify.FollowsDirectlyAfter` | Team34/Code34/src/spa/src/pql/parser/stringify.cpp:79-83 | Follows prints its second reference after "directly_after:" |
| `PqlStringify.PatternCondText` | Team34/Code34/src/spa/src/pql/parser/stringify.cpp:96-101 | a pattern prints exactly when it is an assign pattern with a valid entity reference |
| `PqlStringify.ItemLines` | Team34/Code34/src/spa/src/pql/parser/stringify.cpp:103-121 | the lines of a clause print exactly when each condition prints |
| `PqlStringify.ClauseLines` | Team34/Code34/src/spa/src/pql/parser/stringify.cpp:103-121 | a clause body is one tab-indented line per condition in order, and empty for no conditions |
| `PqlStringify.DeclarationText` | Team34/Code34/src/spa/src/pql/parser/stringify.cpp:33-42 | the text of a declaration; `PqlStringify.DeclarationTextInjective` states different declarations print differently |
| `PqlStringify.RelCondText` | Team34/Code34/src/spa/src/pql/parser/stringify.cpp:44-88 | the text of a relation condition; `PqlStringify.RelCondPrints` states which conditions print, and `PqlStringify.FollowsTAfter` the missing colon after "after" |
| `PqlStringify.PatternClText` | Team34/Code34/src/spa/src/pql/parser/stringify.cpp:103-111 | a pattern clause prints as its header, one tab-indented line per condition and `]`; `PqlStringify.ClauseLines` states the lines |
| `PqlStringify.SuchThatClText` | Team34/Code34/src/spa/src/pql/parser/stringify.cpp:113-121 | a such-that clause prints in the same form; `PqlStringify.ClauseLines` states the lines |
| `PqlParser.Scan` | Team34/Code34/src/spa/src/pql/parser/parser.cpp:27-30 | every token but end-of-input consumes input, and a Number token is a non-empty run of digits |
| `PqlParser.KeywordWithoutEntity` | Team34/Code34/src/spa/src/pql/parser/parser.cpp:66-71 | "then" and "else" pass the design-entity keyword test but name no entity, "prog_line" names an entity but fails the test, and no other keyword falls between the two tables |
| `PqlParser.InsertVar` | Team34/Code34/src/spa/src/pql/parser/parser.cpp:91-105 | a successful insertion adds exactly one declaration, of a name not declared before, with the given entity |
| `PqlParser.InsertVarTo` | Team34/Code34/src/spa/src/pql/parser/parser.cpp:91-105 | on the declaration list, rejects a non-identifier and a duplicate name and otherwise adds the declaration, leaving the list and the stream as the specification function says |
| `PqlParser.DuplicateDeclaration` | Team34/Code34/src/spa/src/pql/parser/parser.cpp:100-101 | declaring a name that is already declared fails |
| `PqlParser.MoreVars` | Team34/Code34/src/spa/src/pql/parser/parser.cpp:135-141 | the comma loop consumes input when it succeeds |
| `PqlParser.MoreVarsAdds` | Team34/Code34/src/spa/src/pql/parser/parser.cpp:135-141 | the comma loop keeps every earlier declaration and gives each new name a declaration of that name with the statement's one entity |
| `PqlParser.ParseDeclaration` | Team34/Code34/src/spa/src/pql/parser/parser.cpp:108-142 | a successful declaration statement consumes input |
| `PqlParser.DeclarationAdds` | Team34/Code34/src/spa/src/pql/parser/parser.cpp:108-142 | a declaration statement adds at least one new name, keeps every earlier declaration, and gives every new name one entity whose keyword passes the keyword test |
| `PqlParser.InsertDeclaration` | Team34/Code34/src/spa/src/pql/parser/parser.cpp:108-142 | the loop over the comma-separated names leaves the declaration list and the stream exactly as the specification function does, errors included |
| `PqlParser.InsertMoreVars` | Team34/Code34/src/spa/src/pql/parser/parser.cpp:135-141 | the while loop over `, name` followed by ';' fails exactly as the comma-loop function does and otherwise leaves the declaration list that function computes |
| `PqlParser.ParseEntRef` | Team34/Code34/src/spa/src/pql/parser/parser.cpp:145-178 | a successful entity reference consumes input, is never the invalid reference, and a synonym reference is one of the declarations |
| `PqlParser.EntRefOfName` | Team34/Code34/src/spa/src/pql/parser/parser.cpp:152-166 | a name between quotes is read as that entity name, with the stream after the closing quote left |
| `PqlParser.ParseStmtRef` | Team34/Code34/src/spa/src/pql/parser/parser.cpp:180-207 | a statement reference succeeds exactly for '_', a number or a declared synonym, consumes input, and is never the invalid reference |
| `PqlParser.StmtRefOfNumber` | Team34/Code34/src/spa/src/pql/parser/parser.cpp:187-194 | a run of digits, leading zeros included, is read as the statement number it denotes in decimal |
| `PqlParser.StmtRefOfText` | Team34/Code34/src/spa/src/pql/parser/parser.cpp:187-194 | the decimal text of n is read back as statement n |
| `PqlParser.ExtractTillQuotes` | Team34/Code34/src/spa/src/pql/parser/parser.cpp:217 | splits the stream into a text without quotes and a rest that is empty or starts with the quote, which together give back the stream |
| `PqlParser.ParseExpr` | Team34/Code34/src/spa/src/pql/parser/parser.cpp:210-225 | a successful quoted expression consumes input |
| `PqlParser.ParseExprSpec` | Team34/Code34/src/spa/src/pql/parser/parser.cpp:227-250 | an expression spec never grows the stream |
| `PqlParser.BareWildcard` | Team34/Code34/src/spa/src/pql/parser/parser.cpp:241 | a '_' not followed by a quote is the wildcard spec, a subexpression spec with no expression |
| `PqlParser.SubexprNeedsClosing` | Team34/Code34/src/spa/src/pql/parser/parser.cpp:242-246 | after '_' and a quoted expression, anything but a closing '_' is an error |
| `PqlParser.EmptyExprSpec` | Team34/Code34/src/spa/src/pql/parser/parser.cpp:227-250 | with neither '_' nor a quote next, the spec is empty and consumes nothing |
| `PqlParser.PatternEnt` | Team34/Code34/src/spa/src/pql/parser/parser.cpp:266-275 | the first pattern argument consumes input, and a synonym there is a variable |
| `PqlParser.ParseAssignPattern` | Team34/Code34/src/spa/src/pql/parser/parser.cpp:253-283 | a successful assign pattern consumes input and records the given assign synonym |
| `PqlParser.ParseIfPattern` | Team34/Code34/src/spa/src/pql/parser/parser.cpp:285-319 | a successful if pattern consumes input and records the given if synonym |
| `PqlParser.ParseWhilePattern` | Team34/Code34/src/spa/src/pql/parser/parser.cpp:322-350 | a successful while pattern consumes input and records the given while synonym |
| `PqlParser.PatternArgs` | Team34/Code34/src/spa/src/pql/parser/parser.cpp:378-396 | the argument form is chosen by the synonym's entity: assign, if or while, each recording that synonym |
| `PqlParser.ParsePattern` | Team34/Code34/src/spa/src/pql/parser/parser.cpp:358-399 | a pattern clause holds exactly one condition, whose synonym is a declared assign, if or while synonym of the matching kind |
| `PqlParser.StarredName` | Team34/Code34/src/spa/src/pql/parser/parser.cpp:401-410 | a successful starred relation name consumes input |
| `PqlParser.StarSpacing` | Team34/Code34/src/spa/src/pql/parser/parser.cpp:403-410 | a blank between a relation name and its '*' is rejected |
| `PqlParser.PlainName` | Team34/Code34/src/spa/src/pql/parser/parser.cpp:431-436 | a successful relation name consumes input |
| `PqlParser.ParseUsesModifies` | Team34/Code34/src/spa/src/pql/parser/parser.cpp:601-697 | Uses yields a statement or procedure Uses relation and Modifies a statement or procedure Modifies relation, consuming input |
| `PqlParser.ParseRelCond` | Team34/Code34/src/spa/src/pql/parser/parser.cpp:700-731 | a successful relation consumes input |
| `PqlParser.ParseSuchThat` | Team34/Code34/src/spa/src/pql/parser/parser.cpp:733-753 | a such-that clause holds exactly one relation and consumes input |
| `PqlParser.SuchThatSpacing` | Team34/Code34/src/spa/src/pql/parser/parser.cpp:738-743 | any blank between "such" and "that" other than one space is rejected |
| `PqlParser.ParseElem` | Team34/Code34/src/spa/src/pql/parser/parser.cpp:755-806 | an element is a declared synonym or a valid attribute of one, and consumes input |
| `PqlParser.AttrNameText` | Team34/Code34/src/spa/src/pql/parser/parser.cpp:778-794 | a successful attribute name consumes input |
| `PqlParser.BlankBeforeDot` | Team34/Code34/src/spa/src/pql/parser/parser.cpp:765-767 | a blank between a synonym and its dot is rejected |
| `PqlParser.TupleElem` | Team34/Code34/src/spa/src/pql/parser/parser.cpp:825-837 | one tuple element consumes input and names a declared synonym |
| `PqlParser.TupleElems` | Team34/Code34/src/spa/src/pql/parser/parser.cpp:821-847 | the element loop consumes input and yields at least one element |
| `PqlParser.TupleElemsExtends` | Team34/Code34/src/spa/src/pql/parser/parser.cpp:821-840 | the element loop keeps the elements already read, in order, and appends only declared ones |
| `PqlParser.ParseTuple` | Team34/Code34/src/spa/src/pql/parser/parser.cpp:808-848 | a tuple consumes input and is never empty |
| `PqlParser.EmptyTuple` | Team34/Code34/src/spa/src/pql/parser/parser.cpp:845-846 | "<>" is rejected |
| `PqlParser.ParseTupleLoop` | Team34/Code34/src/spa/src/pql/parser/parser.cpp:808-848 | the loop over the elements gives exactly the result of the specification function, errors included |
| `PqlParser.ParseResult` | Team34/Code34/src/spa/src/pql/parser/parser.cpp:850-861 | BOOLEAN or a non-empty tuple, consuming input |
| `PqlParser.Clauses` | Team34/Code34/src/spa/src/pql/parser/parser.cpp:879-899 | the clause loop keeps a clause once read and stops only where the next tokens do not start a clause still allowed: after it, a "pattern" means a pattern clause was read and "such that" means a such-that clause was read |
| `PqlParser.ParseSelect` | Team34/Code34/src/spa/src/pql/parser/parser.cpp:863-903 | a successful select consumes input |
| `PqlParser.ParseSelectLoop` | Team34/Code34/src/spa/src/pql/parser/parser.cpp:863-903 | the clause loop with its two flags gives exactly the result of the specification function, errors included |
| `PqlParser.QueryFrom` | Team34/Code34/src/spa/src/pql/parser/parser.cpp:911-934 | a query keeps every declaration made before the select |
| `PqlParser.ParsePQL` | Team34/Code34/src/spa/src/pql/parser/parser.cpp:905-938 | the loop over declarations gives exactly the query of the specification function, errors included |
| `PqlParser.FinishQuery` | Team34/Code34/src/spa/src/pql/parser/parser.cpp:914-925 | the select clause followed by the end-of-input check gives exactly what the specification function gives from Select on |
| `PqlParser.SelectEndsQuery` | Team34/Code34/src/spa/src/pql/parser/parser.cpp:914-925 | a query with a valid select succeeds exactly when nothing but blanks follows the select, and then holds that select |
| `PqlParser.SecondPatternRejected` | Team34/Code34/src/spa/src/pql/parser/parser.cpp:884-899 | a second pattern clause after the first is left unread and makes the query fail |
| `PqlParser.NoSelect` | Team34/Code34/src/spa/src/pql/parser/parser.cpp:933-934 | input that ends before any Select fails |
| `PqlParser.Peek` | Team34/Code34/src/spa/src/pql/parser/parser.cpp:32-35 | succeeds exactly when the lexer can read a token, and yields that token without consuming it |
| `PqlParser.PeekTwo` | Team34/Code34/src/spa/src/pql/parser/parser.cpp:37-40 | its first token is the one `Peek` gives, and its second the one `Peek` gives after the first; it fails whenever `Peek` does |
| `PqlParser.Expect` | Team34/Code34/src/spa/src/pql/parser/parser.cpp:431-455 | succeeds exactly when the next token has the expected type, and then yields the text after that token, which is shorter |
| `PqlParser.IsNextStmtRef` | Team34/Code34/src/spa/src/pql/parser/parser.cpp:566-599 | succeeds exactly on a number, `_`, `"` or a declared synonym; answers true exactly on a number, `_` or a synonym of a statement entity |
| `PqlParser.StmtStmtArgs` | Team34/Code34/src/spa/src/pql/parser/parser.cpp:431-455 | consumes input, and on success both arguments are valid statement references |
| `PqlParser.StmtStmtArgsOfNumbers` | Team34/Code34/src/spa/src/pql/parser/parser.cpp:431-455 | two statement numbers with a `,` between them and the closing `)` read back as those two statements, with the rest of the stream left over |
| `PqlParser.EntEntArgs` | Team34/Code34/src/spa/src/pql/parser/parser.cpp:540-564 | consumes input, and on success both arguments are valid entity references |
| `PqlParser.EntEntArgsOfNames` | Team34/Code34/src/spa/src/pql/parser/parser.cpp:540-564 | two quoted names with a `,` between them and the closing `)` read back as those two names |
| `PqlParser.StmtEntArgs` | Team34/Code34/src/spa/src/pql/parser/parser.cpp:601-648 | consumes input, and on success the first argument is a valid statement reference and the second a valid entity reference |
| `PqlParser.StmtEntArgsOfNumberName` | Team34/Code34/src/spa/src/pql/parser/parser.cpp:601-648 | a statement number and a quoted name with a `,` between them and the closing `)` read back as that statement and that name |
| `PqlParser.ParseQuery` | Team34/Code34/src/spa/src/pql/parser/parser.cpp:905-939 | the query `parsePQL` returns; `PqlParser.ParsePQL` computes it with the source's loop, and `PqlParser.SelectEndsQuery` and `PqlParser.NoSelect` state its failures |
| `EvalTable.Entry.GetVal` | Team34/Code34/src/spa/src/pql/eval/table.cpp:53-60 | yields the name exactly for an entry that is not a statement and fails for a statement entry |
| `EvalTable.Entry.GetStmtNum` | Team34/Code34/src/spa/src/pql/eval/table.cpp:61-68 | yields the number exactly for a statement entry and fails for every other entry |
| `EvalTable.EntryOfStringAsWritten` | Team34/Code34/src/spa/src/pql/eval/table.cpp:22-39 | as written, a name entry is made only for a variable; procedures and constants fall through to the error |
| `EvalTable.EntryOfString` | Team34/Code34/src/spa/src/pql/eval/table.cpp:22-39 | the corrected constructor succeeds exactly for variables, procedures and constants, gives the matching entry type, and reads the name back |
| `EvalTable.FallThroughFinding` | Team34/Code34/src/spa/src/pql/eval/table.cpp:31-37 | for a procedure or constant the constructor as written fails, while the corrected one succeeds and reads the name back |
| `EvalTable.EntryOfStmtNum` | Team34/Code34/src/spa/src/pql/eval/table.cpp:40-52 | a statement entry is made exactly for the entities other than variable, procedure and constant, and reads its number back |
| `EvalTable.EqualsAsWrittenNeverTrue` | Team34/Code34/src/spa/src/pql/eval/table.cpp:79-83 | as written, entry equality is false or throws, never true, and comparing an entry with itself throws |
| `EvalTable.EntryEquality` | Team34/Code34/src/spa/src/pql/eval/table.cpp:79-83 | the corrected equality holds exactly when type, declaration and the live payload agree |
| `EvalTable.EntrySetIntersect` | Team34/Code34/src/spa/src/pql/eval/table.cpp:90-100 | the loop keeps exactly the entries of the first set that are in the second |
| `EvalTable.DomainOf` | Team34/Code34/src/spa/src/pql/eval/table.cpp:144-150 | a known declaration's domain is the stored set; an unknown declaration has the empty domain |
| `EvalTable.PutThenGet` | Team34/Code34/src/spa/src/pql/eval/table.cpp:104-107 | after storing a domain, reading it gives what was stored, and every other declaration's domain is unchanged |
| `EvalTable.Table.constructor` | Team34/Code34/src/spa/include/pql/eval/table.h:121-129 | a new table has no domains, no joins and no selected declarations |
| `EvalTable.Table.PutDomain` | Team34/Code34/src/spa/src/pql/eval/table.cpp:104-107 | the declaration's domain becomes the given set; joins and selected declarations are unchanged |
| `EvalTable.Table.GetDomain` | Team34/Code34/src/spa/src/pql/eval/table.cpp:144-150 | reads the stored domain, or the empty set for an unknown declaration |
| `EvalTable.Table.ClearDomains` | Team34/Code34/src/spa/src/pql/eval/table.cpp:139-142 | removes every domain and nothing else |
| `EvalTable.Table.AddJoin` | Team34/Code34/src/spa/include/pql/eval/table.h:127 | appends the join to the list; domains and selected declarations are unchanged |
| `EvalTable.Table.AddSelectDecl` | Team34/Code34/src/spa/include/pql/eval/table.h:129 | adds the declaration to the selected set; domains and joins are unchanged |
| `Solver.IntRow.GetVal` | Team34/Code34/src/spa/src/pql/eval/solver.cpp:27-35 | yields the entry exactly for a column of the row and fails otherwise |
| `Solver.IntRow.AddColumn` | Team34/Code34/src/spa/src/pql/eval/solver.cpp:12-21 | fails exactly when the declaration is already a column; otherwise the new row has one more column holding the entry and every old column unchanged |
| `Solver.IntRow.IsAllowed` | Team34/Code34/src/spa/src/pql/eval/solver.cpp:37-51 | fails exactly when either join declaration is missing from the row; otherwise holds exactly when the row's pair is an allowed pair |
| `Solver.IntRow.MergeRow` | Team34/Code34/src/spa/src/pql/eval/solver.cpp:79-95 | succeeds exactly when the rows agree on every shared declaration, and the result has the columns of both with each row's own entries |
| `Solver.DisjointRowsMerge` | Team34/Code34/src/spa/src/pql/eval/solver.cpp:62-77 | rows with no declaration in common always merge |
| `Solver.MergeRowSymmetric` | Team34/Code34/src/spa/src/pql/eval/solver.cpp:62-95 | two rows merge in one order exactly when they merge in the other, and to the same row |
| `Solver.CrossMergeMembers` | Team34/Code34/src/spa/src/pql/eval/solver.cpp:134-143 | a row is in the cross product exactly when it is the merge of a row of the first table with a compatible row of the second |
| `Solver.CrossMergeWellShaped` | Team34/Code34/src/spa/src/pql/eval/solver.cpp:130-150 | the cross product of two tables has exactly the union of their headers in every row |
| `Solver.MergeAsWrittenFails` | Team34/Code34/src/spa/src/pql/eval/solver.cpp:133-149 | as written, merge keeps the receiver's rows under the widened headers, so the new table fails its header check whenever the receiver has a row and the other table brings a new header |
| `Solver.MergeAsWrittenKeepsUnmatched` | Team34/Code34/src/spa/src/pql/eval/solver.cpp:133-149 | as written, when the other table brings no new header and no pair of rows can merge, the join is empty yet the result is exactly the receiver's rows, and it passes the header check |
| `Solver.MergeColumnAsWrittenFails` | Team34/Code34/src/spa/src/pql/eval/solver.cpp:160-174 | as written, mergeColumn keeps the receiver's rows under the widened headers, so on a table with a row and a new declaration it fails its header check |
| `Solver.KeepAllowedMembers` | Team34/Code34/src/spa/src/pql/eval/solver.cpp:195-211 | the rows filtering keeps are exactly the table's rows whose pair is allowed |
| `Solver.KeepAllowedShrinks` | Team34/Code34/src/spa/src/pql/eval/solver.cpp:195-211 | filtering never adds rows |
| `Solver.MakeIntTable` | Team34/Code34/src/spa/src/pql/eval/solver.cpp:109-121 | building a table succeeds exactly when every row has the headers as its columns |
| `Solver.IntTable.Empty` | Team34/Code34/src/spa/src/pql/eval/solver.cpp:123 | the default table has no rows and no headers |
| `Solver.IntTable.FromRows` | Team34/Code34/src/spa/src/pql/eval/solver.cpp:109-121 | a table built from rows that have the headers as their columns holds those rows and headers |
| `Solver.IntTable.Merge` | Team34/Code34/src/spa/src/pql/eval/solver.cpp:130-150 | the corrected merge yields one merged row per compatible pair, in order, under the union of the headers, and the new table passes its header check; merging into the default-constructed table yields exactly the other table's rows and headers, as test_solver.cpp:157-159 expects |
| `Solver.RowWithNoColumns` | Team34/Code34/src/spa/src/pql/eval/solver.cpp:79-95 | the row with no columns merges with every row, to that row |
| `Solver.CrossMergeNoColumns` | Team34/Code34/src/unit_testing/src/pql/eval/test_solver.cpp:147-159 | the cross product of the default table, taken as one row with no columns, with any rows is those rows: the default table is the identity of merge |
| `Solver.IntTable.MergeColumn` | Team34/Code34/src/spa/src/pql/eval/solver.cpp:152-175 | fails exactly when the declaration is already a header and there is a row and an entry to add (the two checks that build an exception without throwing have no effect); otherwise every row is extended with every entry of the domain, giving rows times entries rows, under the headers plus the declaration; the default-constructed table counts as one row with no columns, so it succeeds with one row per entry, as test_solver.cpp:180-183 expects |
| `Solver.ExtendRow` | Team34/Code34/src/spa/src/pql/eval/solver.cpp:163-170 | one row is extended with each entry of the domain, one new row per entry |
| `Solver.IntTable.FilterRows` | Team34/Code34/src/spa/src/pql/eval/solver.cpp:185-212 | when both join declarations are headers, exactly the rows whose pair is not allowed are removed and the others keep their order; otherwise nothing changes |
| `RelationAbstractor.OfStmtRef` | Team34/Code34/src/spa/src/pql/eval/common.cpp:19-32 | a statement reference is a declaration, a concrete number or a wildcard exactly as the reference is, carrying its declaration or number |
| `RelationAbstractor.OfEntRef` | Team34/Code34/src/spa/src/pql/eval/common.cpp:14-27 | an entity reference is a declaration, a concrete name or a wildcard exactly as the reference is, carrying its declaration or name |
| `RelationAbstractor.NineShapesSixCases` | Team34/Code34/src/spa/src/pql/eval/common.cpp:74-83 | swapping the declaration/concrete, wildcard/concrete and wildcard/declaration shapes leaves exactly the six ordered shapes the rules handle, and a swapped pair never swaps back |
| `RelationAbstractor.KeptIsFilter` | Team34/Code34/src/spa/src/pql/eval/common.cpp:101-124 | the filtered domain is a subset of the old one and keeps exactly the entries whose entity passes the test |
| `RelationAbstractor.FilterDomain` | Team34/Code34/src/spa/src/pql/eval/common.cpp:101-110 | fails exactly when some entry's entity cannot be looked up; otherwise yields the entries whose entity passes the test |
| `RelationAbstractor.AddRelated` | Team34/Code34/src/spa/include/pql/eval/common.h:81-90 | fails exactly when some related value has no entry; otherwise adds the pairs of the left entry with each related entry, and those entries to the new right domain |
| `RelationAbstractor.RelateOne` | Team34/Code34/src/spa/include/pql/eval/common.h:71-91 | one left entry: fails exactly when its lookup fails; it is kept, with its pairs and related entries, exactly when it has a related value |
| `RelationAbstractor.CollectTwoDecl` | Team34/Code34/src/spa/include/pql/eval/common.h:67-92 | fails exactly when some lookup fails; otherwise yields the kept left entries, the related right entries and the join pairs of the whole left domain |
| `RelationAbstractor.EvaluateTwoDeclRelations` | Team34/Code34/src/spa/include/pql/eval/common.h:63-98 | a failure changes neither domains nor joins; otherwise the left domain keeps the entries with a related value, the right domain becomes the related entries already in it (read after the left one is written), and one join with the pairs is appended |
| `RelationAbstractor.TwoDeclProperties` | Team34/Code34/src/spa/include/pql/eval/common.h:71-95 | a kept left entry is exactly an old entry with a related value, every join pair comes from a kept entry and a value related to it, and every related pair is in the join and its right entry in the new right domain |
| `RelationAbstractor.EvaluateOrdered` | Team34/Code34/src/spa/src/pql/eval/common.cpp:86-152 | for each of the six ordered shapes: which lookups or emptiness make it fail, which domain is filtered by which test, that only the declaration/declaration shape adds a join, and that any other shape fails as unreachable |
| `RelationAbstractor.Evaluate` | Team34/Code34/src/spa/src/pql/eval/common.cpp:36-153 | declared arguments join the selected declarations in the order they are checked; a declaration of the wrong entity fails before any domain or join changes; otherwise the arguments are swapped (with the inverse lookups) exactly for the three mirrored shapes and the ordered rule is applied |
| `UsesModifies.TestsAgreeWithSets` | Team34/Code34/src/spa/src/pql/eval/uses_modifies.cpp:48-138 | in the Uses and Modifies bindings, the membership test of a procedure or a statement holds exactly when the variable is in its used or modified set |
| `UsesModifies.NameEntriesMembership` | Team34/Code34/src/spa/src/pql/eval/uses_modifies.cpp:192-194 | an entry is among the emplaced name entries exactly when it is the declaration's entry for one of the names |
| `UsesModifies.StmtEntriesMembership` | Team34/Code34/src/spa/src/pql/eval/uses_modifies.cpp:330-331 | an entry is among the emplaced statement entries exactly when it is the declaration's entry for one of the numbers |
| `UsesModifies.MakeNameEntries` | Team34/Code34/src/spa/src/pql/eval/uses_modifies.cpp:192-194 | the loop emplaces exactly the declaration's entries for the names |
| `UsesModifies.MakeStmtEntries` | Team34/Code34/src/spa/src/pql/eval/uses_modifies.cpp:326-331 | the loop emplaces exactly the declaration's entries for the statement numbers |
| `UsesModifies.KeepRelated` | Team34/Code34/src/spa/src/pql/eval/uses_modifies.cpp:245-254 | fails exactly when some entry's lookup fails; otherwise keeps exactly the entries that relate some variable |
| `UsesModifies.Restrict` | Team34/Code34/src/spa/src/pql/eval/uses_modifies.cpp:256 | the declaration's domain becomes its old domain intersected with the allowed entries; every other domain, the joins and the selected declarations stay as they were |
| `UsesModifies.RestrictToNames` | Team34/Code34/src/spa/src/pql/eval/uses_modifies.cpp:192-197 | the declaration's domain becomes its old domain intersected with the declaration's entries for the given names; nothing else in the table changes |
| `UsesModifies.RestrictToRelated` | Team34/Code34/src/spa/src/pql/eval/uses_modifies.cpp:240-257 | fails exactly when some entry of the domain cannot be looked up, leaving the table as it was; otherwise the domain keeps exactly its entries that relate some variable |
| `UsesModifies.NonEmptyRelatedIsFilter` | Team34/Code34/src/spa/src/pql/eval/uses_modifies.cpp:353-361 | the kept entries are a subset of the domain, and an entry stays exactly when it relates some variable |
| `UsesModifies.ProcVarsNamed` | Team34/Code34/src/spa/src/pql/eval/uses_modifies.cpp:188 | the procedure's variables are found exactly for a known procedure name, and are that procedure's related variables |
| `UsesModifies.StmtEntIsNotNamed` | Team34/Code34/src/spa/src/pql/eval/uses_modifies.cpp:328 | a statement-entity declaration is neither a named entity nor a procedure |
| `UsesModifies.StmtVarsAt` | Team34/Code34/src/spa/src/pql/eval/uses_modifies.cpp:306 | a statement's variables are found exactly for a number between 1 and the statement count, and are that statement's related variables |
| `UsesModifies.EvaluateP` | Team34/Code34/src/spa/src/pql/eval/uses_modifies.cpp:151-262 | both declarations join the selected ones first; a wildcard procedure or a wrongly typed declaration fails; for each of the six shapes, when it fails, which domain is intersected with which entries, and that only the declaration/declaration shape adds a join |
| `UsesModifies.EvaluateS` | Team34/Code34/src/spa/src/pql/eval/uses_modifies.cpp:268-369 | both declarations join the selected ones first; a wildcard statement, a non-variable or a non-statement declaration fails; for each of the six shapes, when it fails, which domain is intersected with which entries, and that only the declaration/declaration shape adds a join |
| `UsesModifies.EvaluateRelCond` | Team34/Code34/src/spa/src/pql/eval/uses_modifies.cpp:48-138 | UsesP and ModifiesP run the procedure form and UsesS and ModifiesS the statement form, each with its own variable sets and tests; a failure changes no domain or join |
| `PatternEval.MatchingVars` | Team34/Code34/src/spa/src/pql/eval/pattern.cpp:72-84 | fails exactly when some variable entry has no name; otherwise yields the entries of the variable domain that the statement accepts, and no others |
| `PatternEval.MatchVars` | Team34/Code34/src/spa/src/pql/eval/pattern.cpp:153-162 | the loop over the variable domain yields exactly the accepted entries |
| `PatternEval.StepEntry` | Team34/Code34/src/spa/src/pql/eval/pattern.cpp:36-99 | one statement entry's step: whether it stays, its join pairs and its matched variables, as the pattern spec defines them |
| `PatternEval.AddStep` | Team34/Code34/src/spa/src/pql/eval/pattern.cpp:36-99 | adding one entry to the processed ones fails exactly when its step fails, and otherwise extends the kept entries, join pairs and matched variables by that entry's share |
| `PatternEval.CollectPattern` | Team34/Code34/src/spa/src/pql/eval/pattern.cpp:130-181 | the loop over the pattern's domain fails exactly when some entry's step fails; otherwise yields the kept entries, the join pairs and the matched variable entries of the whole domain |
| `PatternEval.EvaluatePattern` | Team34/Code34/src/spa/src/pql/eval/pattern.cpp:16-191 | the variable declaration is selected before the pattern's own one; with a variable declaration the variable domain shrinks to the matched variables and one join is appended; the pattern's domain becomes the kept entries; a failure changes neither domains nor joins |
| `PatternEval.EvaluatePatternCond` | Team34/Code34/src/spa/src/pql/eval/pattern.cpp:198-212 | an assignment pattern uses its expression spec, and if and while patterns share the condition-variable rule |
| `PatternEval.KeptMeaning` | Team34/Code34/src/spa/src/pql/eval/pattern.cpp:43-99 | an entry stays exactly when its statement passes the expression spec (or has a condition variable) and its variable part is the named variable, some variable of the variable domain, or a wildcard |
| `PatternEval.JoinPairsMeaning` | Team34/Code34/src/spa/src/pql/eval/pattern.cpp:72-84 | a pair is in the join exactly when its statement passes the pre-test and accepts its variable entry, and both halves of every pair are kept |
| `PatternEval.EntryStep` | Team34/Code34/src/spa/src/pql/eval/pattern.cpp:36-99 | what one entry contributes; `PatternEval.KeptMeaning` and `PatternEval.JoinPairsMeaning` state whether it stays and which pairs it adds |
| `WithEval.TypeOf` | Team34/Code34/src/spa/src/pql/eval/with.cpp:20-52 | numbers are numeric and strings textual; a bare synonym is numeric exactly when it is a prog_line and fails otherwise; an attribute fails exactly when invalid and is textual exactly for procName and varName |
| `WithEval.AttrText` | Team34/Code34/src/spa/src/pql/eval/with.cpp:73-89 | a stmt# attribute is compared through its statement number's decimal text, and fails on an entry without a number; any other attribute through its value |
| `WithEval.FilterByAttr` | Team34/Code34/src/spa/src/pql/eval/with.cpp:68-95 | fails exactly when some attribute lookup fails; otherwise keeps exactly the entries whose attribute text equals the constant |
| `WithEval.HandleAttrRefConst` | Team34/Code34/src/spa/src/pql/eval/with.cpp:59-98 | the attribute's declaration is selected, and its domain keeps exactly the entries whose attribute equals the constant; a failure changes no domain or join |
| `WithEval.StmtNumConstMeaning` | Team34/Code34/src/spa/src/pql/eval/with.cpp:78-84 | stmt# = n keeps exactly the entries numbered n when n has no leading zero, and none when it has one |
| `WithEval.StmtEntriesIn` | Team34/Code34/src/spa/src/pql/eval/with.cpp:162-171 | the call, print or read entries found are all in the right domain |
| `WithEval.MatchesOf` | Team34/Code34/src/spa/src/pql/eval/with.cpp:264-288 | every right entry a left entry matches is in the right domain |
| `WithEval.HandleAttrRefAttrRef` | Team34/Code34/src/spa/src/pql/eval/with.cpp:226-294 | both declarations are selected; the smaller domain is iterated; its entries without a match are removed, the other domain becomes the matched entries, and one join records the matches; a failure changes no domain or join |
| `WithEval.NumericPairsMeaning` | Team34/Code34/src/spa/src/pql/eval/with.cpp:100-136 | for two numeric attributes, a left entry stays exactly when its counterpart is in the right domain, the join pairs each kept entry with its counterpart, and the new right domain lies within the old one |
| `WithEval.StmtNumValueCounterparts` | Team34/Code34/src/spa/src/pql/eval/with.cpp:110-118 | a statement numbered n is matched with the constant written n, and that constant back with the same statement when n fits a long long; a larger constant makes the conversion throw |
| `WithEval.Normalise` | Team34/Code34/src/spa/src/pql/eval/with.cpp:317-321 | the sides are kept or swapped; unless both are literals the first is not a literal, and an attribute is never left facing a bare synonym |
| `WithEval.EvaluateWith` | Team34/Code34/src/spa/src/pql/eval/with.cpp:298-340 | an invalid or mismatched type fails and changes nothing; two literals hold exactly when equal; a bare synonym fails; an attribute against a constant or another attribute has the outcome of the respective rule |
| `WithEval.Counterpart` | Team34/Code34/src/spa/src/pql/eval/with.cpp:110-118 | the right entry built from a left one; `WithEval.StmtNumValueCounterparts` states the stmt# and value conversions, and `WithEval.NumericPairsMeaning` what the pairs are |
| `FollowsCalls.NonZero` | Team34/Code34/src/spa/src/pql/eval/follows.cpp:43-55 | the directly following or preceding statement is a one-element set, empty when the number is 0 |
| `FollowsCalls.RelatedSetsAgreeWithRelation` | Team34/Code34/src/spa/src/pql/eval/follows.cpp:35-55 | in the Follows, Follows*, Calls and Calls* configurations a relation (and its inverse) holds exactly when the second entity's key is among the first's related (inversely related) values |
| `FollowsCalls.FollowsWildcardKeeps` | Team34/Code34/src/spa/src/pql/eval/follows.cpp:43-55 | Follows(s, _) keeps exactly the statements with a follower, and Follows(_, s) exactly those that follow another |
| `FollowsCalls.EvaluateFollows` | Team34/Code34/src/spa/src/pql/eval/follows.cpp:18-64 | Follows applies the relation rule with no entity restriction: a failure changes nothing, and otherwise the ordered outcome of the rule holds |
| `FollowsCalls.EvaluateFollowsT` | Team34/Code34/src/spa/src/pql/eval/follows.cpp:66-101 | Follows* applies the relation rule with the transitive sets: a failure changes nothing, and otherwise the ordered outcome holds |
| `FollowsCalls.EvaluateCalls` | Team34/Code34/src/spa/src/pql/eval/calls.cpp:20-54 | Calls fails on a declared argument that is not a procedure, and otherwise has the ordered outcome of the relation rule |
| `FollowsCalls.EvaluateCallsT` | Team34/Code34/src/spa/src/pql/eval/calls.cpp:56-90 | Calls* fails on a declared argument that is not a procedure, and otherwise has the ordered outcome of the rule with the transitive sets |
| `ArenaAlloc.MakeNewChunk` | Team34/Code34/src/spa/src/util/arena.cpp:20-30 | a new chunk has nothing used and a capacity that is the larger of the minimum and 256 KiB |
| `ArenaAlloc.AlignUp` | Team34/Code34/src/spa/src/util/arena.cpp:47 | the aligned position is a multiple of the alignment and lies less than one alignment past the bump position |
| `ArenaAlloc.FirstFit` | Team34/Code34/src/spa/src/util/arena.cpp:43-64 | the chunk chosen is the first, from the head, that holds the request: it holds it and no earlier chunk does; past the end when none does |
| `ArenaAlloc.WorstCaseFits` | Team34/Code34/src/spa/src/util/arena.cpp:66-71 | a chunk sized for the request plus the worst padding always holds the request |
| `ArenaAlloc.Headed` | Team34/Code34/src/spa/src/util/arena.cpp:36-41 | the chunk list allocate walks is never empty |
| `ArenaAlloc.ServedIndex` | Team34/Code34/src/spa/src/util/arena.cpp:43-72 | the chunk a request is served from is a valid index of the list after the request |
| `ArenaAlloc.ServedInside` | Team34/Code34/src/spa/src/util/arena.cpp:47-58 | a request served from a chunk starts at an aligned position at or after the chunk's bump position, ends at the new bump position, and stays within the capacity |
| `ArenaAlloc.AllocateServes` | Team34/Code34/src/spa/src/util/arena.cpp:32-73 | a non-empty request gets an aligned block inside one chunk, right after what that chunk had handed out; no chunk overflows and every other chunk is unchanged |
| `ArenaAlloc.Arena.constructor` | Team34/Code34/src/spa/include/arena.h:26-27 | a new arena has no chunks |
| `ArenaAlloc.Arena.Allocate` | Team34/Code34/src/spa/src/util/arena.cpp:32-73 | a head chunk is made when there is none; a zero-size request returns the head's bump position; any other is served from the first chunk that holds it or from a new chunk pushed at the head; the chunks stay within their capacities |
| `ArenaAlloc.Arena.Bump` | Team34/Code34/src/spa/src/util/arena.cpp:54-58 | serving from a chunk that holds the request advances only that chunk's used space and returns the aligned start |
| `ArenaAlloc.Arena.Clear` | Team34/Code34/src/spa/src/util/arena.cpp:75-90 | every chunk is released and the arena is empty |

## Left out

### Outside the model
- Harness I/O is not modelled: running the autotester, listing directories, checking the executable, deleting old outputs, printing and writing the summary file. Directory listings and the folder tree are parameters, and the autotester commands are returned as values.
- XML parsing is not modelled. Each `query` element is a record of optional children, each with optional text.
- The percentage in the summary line is floating point and is not modelled.
- Logging, the logging side effect of the exception constructors, the timer and `CFG::showMat` are not modelled. They print but decide nothing.
- File reading and the autotester glue are not part of this model.
- `Table::getTablePerm` and `Table::getResult` (`pql/eval/table.cpp:116-193`) are not modelled. The first reassigns a container while iterating over it, and the second compares one entry against both sides of a join pair. Neither has a behaviour that could be stated.
- The older code generations that the files above replace are not modelled. These are the `frontend` lexer and parser, the older pattern matchers over raw node addresses in `util`, the older `PKB.cpp`/`pkb.cpp`, `simple/ast.cpp` and `pql/ast.cpp`, the older evaluator with `uses.cpp` and `modifies.cpp`, and the old headers. The second CallGraph copy inside `design_extractor.cpp:171-244` is not modelled either; `call_graph.cpp` is modelled once.
- The Next, Affects and Parent clause configurations (`next.cpp`, `affects.cpp`, `next_affects_bip.cpp`, `parent.cpp`) are not modelled. They forward to Statement and CFG methods whose bodies are not among the sources.
- Destructors, `util/misc.cpp` and the `Solver` constructor declared without a body are not modelled.
- The one-line getters of `pkb/statement.cpp` and `pkb/procedure.cpp` are fields and set-membership predicates of the PKB records.
- `Table::extractAttr` has no body among the source files. The knowledge-base lookups that `with.cpp:157-201` makes are `maybeGetProcedureNamed` with `getCallStmts`, and `maybeGetVariableNamed` with `getPrintStmts` and `getReadStmts`. Both the attribute extraction and these lookups are parameters of `WithEval.WithLookups` rather than reads of a modelled knowledge base.
- `Select::toString` and `Query::toString` (`pql/parser/stringify.cpp:123-133`) are not modelled. They are debugging printers whose output nothing parses or compares.
- `ProgramKB::nextRelationExists`, `affectsRelationExists`, `nextBipRelationExists` and `affectsBipRelationExists` (`pkb/pkb.cpp:124-142`) forward to the CFG. The model returns a flag field for each, and does not relate it to the CFG's answer.

### Modelling choices
- `ArenaAlloc.Arena.Allocate`: `malloc` is outside the model. The two addresses a call may obtain are parameters. The chunk list is a sequence field, with the head first, rather than linked nodes.
- The PQL parser is modelled over the token type of its own header (`DoubleQuotes` around a quoted name). The lexer of the same snapshot emits `String` tokens instead. Each file is modelled against its own types.
- `ExtractorParents`: processAncestors' breadth-first queue and processFollows' index loops are modelled as functions over the numbered tree. Their results are sets and records whose order the source does not fix.
- `ExtractorUses`: the uses/modifies passes are modelled on table values rather than on objects updated in place, in the order the source visits the tree.
- `ExtractorReprocess.ReprocessStmt`: the recursion into callees carries a `fuel` bound, which `processProgram` sets to the number of procedures. The model does not prove that this bound is never exhausted on an acyclic call graph. Where it runs out, the callee's body is not reprocessed again before the call statement takes on the callee's sets.
- `PkbCfg.CFG.ComputeDistMat`: the sum of two entries is exact rather than a 32-bit `int`. The source forms the sum before its INF guard, so the sum overflows whenever a summand is INF. The guard then discards that sum; the model evaluates the same guard on the exact sum.
- Statement numbers are natural numbers without `size_t` wrap-around.
- `PqlParser.ParseDeclaration`: on the `then`/`else` keywords the source reads a map entry that does not exist, which is undefined behaviour. The model returns `Err`.
- `PqlLexer.LexQuoted`: on a string with no closing quote the source's loop reads past the end of the input. The model returns `Err`, as `PqlLexer.UnterminatedString` states.
- `FollowsCalls.EvaluateCalls`, `FollowsCalls.EvaluateCallsT`, `UsesModifies.EvaluateP`, `UsesModifies.EvaluateRelCond`, `UsesModifies.RestrictToNames`, `WithEval.Counterpart` and `WithEval.EvaluateWith` build their entries with the corrected `EvalTable.EntryOfString` and compare them with the structural equality stated by `EvalTable.EntryEquality` (domains are `set<Entry>`); these are the corrected halves of the table.cpp rows under "## Findings". As written, `Entry(decl, string)` throws for every procedure and constant declaration (`pql/eval/table.cpp:31-37`), so the initial domain of a procedure declaration (`pql/eval/evaluator.cpp:68`), Calls/Calls* between two declarations (`pql/eval/common.h:81`), the procedure forms of Uses/Modifies (`pql/eval/uses_modifies.cpp:223`, `:235-238`) and the procName and value entries of `pql/eval/with.cpp` all throw; and `operator==` (`pql/eval/table.cpp:79-83`) throws on every comparison an `unordered_set<Entry>` makes. The model's results for these queries are what the corrected definitions give, not the exception the code as written raises.
- `pql/eval/solver.cpp:155-167`: `mergeColumn` builds two exceptions without throwing them. The model gives those checks no effect.
- `ResultParser` and `ParseResultXml` follow the code: a query fails exactly when it has a `failed` child. The `exception` and `timeout` verdicts described for a later version of the harness are not in this code.
- `TestRunner.ReportPathOfDotQuery`: the report name drops four characters from the query name, so "a.query" gives "output-a.q.xml". This is what the code does.

### Weaker contracts
Each parse function below has a contract that says only that it consumes input. This is what its callers' termination needs. The text each one accepts, and its result, are stated by the round-trip lemmas (`SimpleRoundTrip.*`), the parser facts (`SimpleParserFacts.*`) and the loop methods.
- SimpleParser.ParsePrimary: states only that input is consumed; its result is pinned by `SimpleRoundTrip.ExprRoundTrip`.
- SimpleParser.ParseRhs: states only that the stream never grows; grouping is stated by `SimpleParserFacts.ThreeOperands`.
- SimpleParser.ParseExpr: states only that input is consumed; see `SimpleRoundTrip.ExprRoundTrip`.
- SimpleParser.ParseBinaryCond: states only that input is consumed; see `SimpleRoundTrip.CondRoundTrip`.
- SimpleParser.ParseRelational: states only that input is consumed; see `SimpleRoundTrip.CondRoundTrip`.
- SimpleParser.ParseCond: states only that input is consumed; see `SimpleRoundTrip.CondRoundTrip` and `SimpleParserFacts.ChainedRelationalRejected`.
- SimpleParser.ParseNot: states only that input is consumed; see `SimpleRoundTrip.CondRoundTrip`.
- SimpleParser.ParseParenCond: states only that input is consumed; see `SimpleRoundTrip.CondRoundTrip`.
- SimpleParser.ParseCondTail: states only that the stream never grows; see `SimpleRoundTrip.CondRoundTrip`.
- SimpleParser.ParseStmtList: states only that input is consumed; see `SimpleRoundTrip.ListRoundTrip`, `SimpleParserFacts.EmptyListRejected` and `SimpleParserFacts.UnclosedList`.
- SimpleParser.ParseStmts: states only that the stream never grows; see `SimpleParserFacts.UnclosedStatements`.
- SimpleParser.ExpectSemicolon: states only that input is consumed.
- SimpleParser.ParseIf: states only that input is consumed; see `SimpleRoundTrip.StmtRoundTrip` and `SimpleParserFacts.IfWithoutElse`.
- SimpleParser.ParseWhile: states only that input is consumed; see `SimpleRoundTrip.StmtRoundTrip`.
- SimpleParser.ParseStmt: states only that input is consumed; see `SimpleRoundTrip.StmtRoundTrip` and `SimpleParserFacts.KeywordAsAssignmentTarget`.
- SimpleParser.ParseProcedure: states only that input is consumed; see `SimpleRoundTrip.ProcedureRoundTrip`.
- PqlParser.MoreVars: states only that input is consumed; what it adds is stated by `PqlParser.MoreVarsAdds`.
- PqlParser.ParseExpr: states only that input is consumed; the quoted text is stated by `PqlParser.ExtractTillQuotes`.
- PqlParser.ParseExprSpec: states only that the stream never grows; its cases are stated by `PqlParser.BareWildcard`, `PqlParser.SubexprNeedsClosing` and `PqlParser.EmptyExprSpec`.
- PqlParser.StarredName: states only that input is consumed; the accepted spacing is stated by `PqlParser.StarSpacing`.
- PqlParser.PlainName: states only that input is consumed.
- PqlParser.ParseRelCond: states only that input is consumed; the argument kinds are stated by `PqlParser.ParseUsesModifies`.
- PqlParser.AttrNameText: states only that input is consumed; see `PqlParser.BlankBeforeDot`.
- PqlParser.TupleElem: states that input is consumed and the element names a declared synonym; it does not state the element's shape.
- PqlParser.ParseTuple: states that input is consumed and the tuple is non-empty; the elements are stated by `PqlParser.ParseTupleLoop`.
- PqlParser.ParseSelect: states only that input is consumed; the clauses are stated by `PqlParser.ParseSelectLoop`, `PqlParser.SecondPatternRejected` and `PqlParser.SelectEndsQuery`.
- PqlParser.StmtStmtArgs: states only that input is consumed and that both arguments are valid references. The text it accepts is stated for two numbers by `PqlParser.StmtStmtArgsOfNumbers`, not for synonyms or wildcards.
- PqlParser.EntEntArgs: states only that input is consumed and that both arguments are valid references. The text it accepts is stated for two quoted names by `PqlParser.EntEntArgsOfNames`.
- PqlParser.StmtEntArgs: states only that input is consumed and that both arguments are valid references. The text it accepts is stated for a number and a quoted name by `PqlParser.StmtEntArgsOfNumberName`.
- ExtractorReprocess.ReprocessList: the final uses/modifies closure is stated only for lists without call statements and with distinct numbers (`ExtractorClosure.ListClosed`). For a list with calls, the model states only that the records grow, plus each statement's own facts right after its step. Reprocessing a callee rewrites records of another procedure's body, and keeping earlier containers finished across that needs the call graph's acyclicity, which is not proved here. The fuel bound's sufficiency is not proved either.
- DesignExtractor.Reprocess: the closure of every container of every body is stated only for programs without call statements whose bodies are numbered apart. For other programs the pass states only that the records grow.
- DesignExtractor.Build: its `Extraction` result states the third pass's closure only for programs without call statements. For programs with calls, only each pass's local facts are stated.
- DesignExtractor.ProcessProgram: the same as `Build`. `DesignExtractor.NestedUsesModifies` lifts the closure to every nesting depth, for call-free programs only. That the fuel bound of the number of procedures suffices on an acyclic call graph is not proved.
- WithEval.StmtEntriesIn: states only that the entries found lie in the right domain.
- WithEval.MatchesOf: states only that the matches lie in the right domain; for numeric attributes they are stated by `WithEval.NumericPairsMeaning`.

## Findings

| source | as written | input that shows it | evidently intended | confidence | as-written member | corrected member |
|---|---|---|---|---|---|---|
| Team34/Code34/src/spa/src/pql/parser/lexer.cpp:49-83 | the plain keywords `Next`, `Calls`, `Parent`, `Follows` and `Affects` are tried before their starred forms, and the first prefix match wins, so no starred keyword token is ever produced | "Follows*(1,2)" lexes as `Follows` followed by "*(1,2)" | a starred keyword is produced when the text starts with it | not executed | `PqlLexer.StarKeywordsShadowed`, `PqlLexer.FollowsStarSplits` | `PqlLexer.NextKeywordTokenStarFirst`, `PqlLexer.StarKeywordsReachable` |
| Team34/Code34/src/spa/src/pql/eval/table.cpp:31-37 | the PROCEDURE and CONSTANT cases of `Entry(decl, string)` have no `break`, so they fall through to the throwing default | an entry for a procedure declaration `p` with name "main" | procedure and constant entries are built with their own entry types | not executed | `EvalTable.EntryOfStringAsWritten`, `EvalTable.FallThroughFinding` | `EvalTable.EntryOfString` |
| Team34/Code34/src/spa/src/pql/eval/table.cpp:79-83 | `operator==` reads both `getStmtNum()` and `getVal()` of the other entry, and one of them throws for every entry | any entry compared with itself | entries are equal when type, declaration and payload agree | not executed | `EvalTable.EqualsAsWrittenNeverTrue` | `EvalTable.EntryEquality` |
| Team34/Code34/src/spa/src/pql/eval/solver.cpp:133 | `merge` starts its result from a copy of the receiver's rows, which lack the other table's columns, and then checks every row against the unioned headers; when the other table brings no new header the check passes and the receiver's unmatched rows stay in the result | merging a one-row table over `{a}` with a table over `{b}`; merging a table over `{a}` with a table over `{a}` whose rows all disagree keeps the receiver's rows where the join is empty; also, merging a two-row table into the default-constructed table gives no rows, where test_solver.cpp:157-159 expects two | the result holds only the merged rows, and the default-constructed table is the identity | not executed | `Solver.MergeAsWrittenFails`, `Solver.MergeAsWrittenKeepsUnmatched` | `Solver.IntTable.Merge`, `Solver.CrossMergeWellShaped`, `Solver.CrossMergeNoColumns` |
| Team34/Code34/src/spa/src/pql/eval/solver.cpp:160 | `mergeColumn` starts its result from a copy of the receiver's rows, which lack the new column | adding a column `b` to a one-row table over `{a}`; also, adding a four-entry column to the default-constructed table gives no rows, where test_solver.cpp:180-183 expects four | the result holds only the extended rows, and the default-constructed table gains one row per entry | not executed | `Solver.MergeColumnAsWrittenFails` | `Solver.IntTable.MergeColumn` |
