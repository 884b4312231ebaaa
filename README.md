# IncLang in Dafny

IncLang is a tiny language with two statements. `x=10;` declares a variable with a
number literal. `print(e);` prints an expression, where an expression is a literal, a
variable or `inc(e)` (its argument plus one). The C++ implementation in `test.cpp` runs
each source text through four stages:

1. a lexer (`Lexer`) that moves a cursor and a line counter over the text;
2. a recursive-descent parser (`Parser`) with one token of lookahead;
3. a declare-before-use check (`SemanticAnalyzer`);
4. a tree-walking interpreter (`Interpreter`).

This project models each stage in the form the C++ has. It then proves what the stages
promise one at a time and together.

- `wrappers.dfy` (`Wrappers`): `Option`, `Result` and `Outcome`. Errors are values here,
  not exceptions.
- `syntax.dfy` (`Syntax`): token kinds, tokens, expressions, statements and the error
  taxonomy (syntax, semantic, runtime). The `dynamic_cast` hierarchy becomes a closed
  datatype.
- `lexing.dfy` (`Lexing`):
  - `Scan` is the specification of one `nextToken` call on a cursor. `Tokens` is the
    stream of all calls up to end-of-file.
  - The `Lexer` class has the fields `pos` and `line`, and its methods loop like
    `skipWhitespace`, `scanIdentifier` and `scanNumber`.
  - `NextToken` is proved to do what `Scan` says.
- `grammar.dfy` (`Grammar`): the grammar as functions over the tokens still to be read,
  plus lemmas about dispatch and rejection.
- `parsing.dfy` (`Parsing`):
  - The `Parser` class holds a lexer and a lookahead token.
  - Its ghost `Pending()` is the lookahead followed by everything the lexer will still
    return.
  - Each method is proved to agree with its grammar function on that stream.
- `soundness.dfy` (`Soundness`): the converse of the round trip. Whatever the parser
  accepts is grammatical: the accepted tokens have exactly the kinds of the tree
  returned, the tree's names and literal values are read off those tokens, and the rest
  of the input is left untouched.
- `checking.dfy` (`Checking`): `AnalyzeExpr`, the pass `Analysis`, and the class
  `SemanticAnalyzer`. The symbol table is a set, because the C++ map only ever stores
  `true`. The lemmas characterise exactly when the check passes.
- `execution.dfy` (`Execution`):
  - `EvaluateExpr`, the run `Execute`, and the class `Interpreter`. The printed values are
    an output sequence.
  - `LastValue`, `Base` and `Printed` are an independent reference semantics. It reads
    each print's value off the program text.
- `unparsing.dfy` (`Unparsing`): a printer from trees back to source text. It is the
  partner of the lexer and the parser. Lexing and then parsing a printed tree gives the
  tree back.
- `driver.dfy` (`Driver`):
  - the pipeline of `run_test` as the function `Run`, and the method `RunPipeline` built
    from the four classes;
  - theorems that join the stages;
  - the harness programs as concrete lemmas.

Decisions:
- Characters are ASCII. `isalpha` and `isdigit` accept only `A`–`Z`, `a`–`z` and `0`–`9`.
- An identifier must start with a letter. The code tests only `isalpha` for the first
  character (test.cpp:38), so a leading `_` is an `UNKNOWN` token
  (`Lexing.LeadingUnderscore`).
- A number token keeps its lexeme, as in the code. The parser turns it into a value with
  `DecimalValue`, which is `std::stoi` without its overflow check.
- A declaration stores the value of its literal directly.
- The lexer delivers tokens on demand to a parser that stops at the first error. The
  lexer itself never fails. So parsing on demand and parsing the complete stream `Tokens`
  agree, and the parser's `Pending()` makes this precise.

## Model

| member | source | states |
|---|---|---|
| Lexing.Keywords | test.cpp:28 | the keyword table holds exactly `inc` and `print`, mapped to `Inc` and `Print` |
| Lexing.KeywordKind | test.cpp:28 | the keyword table maps a word to `Inc`, `Print` or `Identifier`, and never to any other kind |
| Lexing.PunctKind | test.cpp:39 | a single character becomes a punctuator kind or `Unknown`, never a word, number or end-of-file |
| Lexing.RunEndMaximal | test.cpp:31-33 | the run every scanning loop consumes is maximal: each character in it satisfies the predicate and the next one does not |
| Lexing.RunEndIs | test.cpp:31-33 | conversely, any maximal run from a position ends where `RunEnd` says |
| Lexing.Scan | test.cpp:36-40 | one token never moves the cursor backwards or past the end; the line counter never decreases and is the token's line; end-of-file is returned only at the end of the text, with an empty lexeme (`ScanAtEnd` is the converse); any other token advances the cursor |
| Lexing.Tokens | test.cpp:36-40 | the stream of successive tokens ends with end-of-file, and no earlier token is end-of-file |
| Lexing.ScanAtEnd | test.cpp:37 | at the end of the source the lexer returns end-of-file and leaves the position and the line unchanged |
| Lexing.EndOfFileRepeats | test.cpp:37 | after an end-of-file token, every further call returns the same token from the same cursor |
| Lexing.ScanSkipsWhitespace | test.cpp:31-37 | a token starts after the maximal whitespace run, its line is the old line plus the line feeds in that run, and its lexeme is the text it consumed |
| Lexing.ScanWordStart | test.cpp:38 | a token is a word (keyword or identifier) exactly when its first character is a letter |
| Lexing.ScanWordMaximal | test.cpp:28-38 | a word's lexeme is a letter followed by letters, digits and underscores, and no such character follows it; it is `Inc` iff the lexeme is "inc" and `Print` iff it is "print" |
| Lexing.ScanNumberStart | test.cpp:38 | a token is a number exactly when its first character is a digit |
| Lexing.ScanNumberMaximal | test.cpp:33-38 | a number's lexeme is a non-empty run of digits, and no digit follows it |
| Lexing.ScanSingle | test.cpp:39 | any other character is a one-character token of its punctuator kind, or `Unknown` |
| Lexing.LeadingUnderscore | test.cpp:32-38 | a leading `_` is a one-character `Unknown` token: identifiers only start with a letter |
| Lexing.Lexer.constructor | test.cpp:27-35 | a new lexer is at position 0, line 1 |
| Lexing.Lexer.Peek | test.cpp:30 | the next unread character, without consuming it; at the end it is NUL, which is neither whitespace nor a word or digit character, so every scanning loop stops there |
| Lexing.Lexer.Advance | test.cpp:29 | returns the current character, or NUL at the end, and moves one place unless at the end |
| Lexing.Lexer.SkipWhitespace | test.cpp:31 | the position moves to the end of the maximal run of space, tab, CR and LF; the line grows by the number of LFs in that run |
| Lexing.Lexer.ScanIdentifier | test.cpp:32 | consumes the maximal identifier run and returns its keyword kind or `Identifier`, with that run as lexeme |
| Lexing.Lexer.ScanNumber | test.cpp:33 | consumes the maximal digit run and returns a number token with that run as lexeme |
| Lexing.Lexer.NextToken | test.cpp:36-40 | the token and the new cursor are exactly what `Scan` gives for the old cursor |
| Grammar.NextMovesOn | test.cpp:47 | one `advance` drops exactly the lookahead and keeps the rest in order, except at the final end-of-file token, which stays; a well-formed stream stays well formed |
| Grammar.DecimalValue | test.cpp:51 | `stoi` on a digit string: its decimal value, read left to right; `DecimalValue(DecimalString(n)) == n` for every natural `n` (`Unparsing.DecimalString`), although leading zeros make it many-to-one |
| Grammar.DecimalNonNegative | test.cpp:51 | the value `stoi` gives a digit string is never negative |
| Grammar.DecimalLeadingZero | test.cpp:56 | leading zeros do not change a literal's value |
| Grammar.Consume | test.cpp:48 | a successful consume leaves a well-formed stream, shorter unless at end-of-file |
| Grammar.ParseIncCall | test.cpp:49 | success leaves a strictly shorter stream; every failure is a syntax error |
| Grammar.ParseExpr | test.cpp:50-55 | success leaves a strictly shorter stream; every failure is a syntax error |
| Grammar.ParseVarDecl | test.cpp:56 | success leaves a strictly shorter stream; every failure is a syntax error |
| Grammar.ParsePrintStmt | test.cpp:57 | success leaves a strictly shorter stream; every failure is a syntax error |
| Grammar.ParseStatement | test.cpp:58 | success leaves a strictly shorter stream; every failure is a syntax error |
| Grammar.ParseStatements | test.cpp:61 | every failure of the statement loop is a syntax error |
| Grammar.ParseProgram | test.cpp:61 | every failure of `parse` is a syntax error |
| Grammar.StatementDispatch | test.cpp:58 | on a lookahead other than an identifier or `print`, the parser fails with "Expected statement"; a statement parsed from an identifier is the declaration of that name with the value of the third token; one parsed from `print` is a print |
| Grammar.StatementsExtend | test.cpp:61 | `parse` returns at once at end-of-file; otherwise success needs a statement and adds at least one; the statements already parsed stay a prefix of the result |
| Grammar.DeclarationNeedsNumber | test.cpp:56 | after `name =`, any token other than a number fails with "Expected value", naming that token's lexeme and line; `x = inc(1);` is rejected at `inc` |
| Grammar.IncWithoutArgument | test.cpp:49-54 | `inc()` fails in the argument's `parseExpr` with "Expected expression" |
| Grammar.DeclarationNeedsSemicolon | test.cpp:56 | `name = number` followed by anything but `;` fails with "Expected ';'", naming that token's lexeme and line |
| Grammar.PrintNeedsClosingParen | test.cpp:57 | `print ( expression` followed by anything but `)` fails with "Expected ')'", naming that token's lexeme and line |
| Parsing.Parser.constructor | test.cpp:60 | priming the lookahead leaves the pending tokens equal to the lexer's whole token stream |
| Parsing.Parser.Advance | test.cpp:47 | the pending stream moves on by one token, and stays at end-of-file once there |
| Parsing.Parser.Check | test.cpp:47 | true exactly when the next pending token has the given kind |
| Parsing.Parser.Consume | test.cpp:48 | result and remaining stream agree with `Grammar.Consume` |
| Parsing.Parser.ParseIncCall | test.cpp:49 | result and remaining stream agree with `Grammar.ParseIncCall` |
| Parsing.Parser.ParseExpr | test.cpp:50-55 | result and remaining stream agree with `Grammar.ParseExpr` |
| Parsing.Parser.ParseVarDecl | test.cpp:56 | result and remaining stream agree with `Grammar.ParseVarDecl` |
| Parsing.Parser.ParsePrintStmt | test.cpp:57 | result and remaining stream agree with `Grammar.ParsePrintStmt` |
| Parsing.Parser.ParseStatement | test.cpp:58 | result and remaining stream agree with `Grammar.ParseStatement` |
| Parsing.Parser.Parse | test.cpp:61 | the program, or the first error, is `Grammar.ParseProgram` of the pending stream |
| Checking.AnalyzeExpr | test.cpp:68-74 | passes iff every variable of the expression is declared; a failure names one of its variables that is undeclared |
| Checking.AnalysisPassesIffWellScoped | test.cpp:72-81 | the check passes iff every print uses only names declared by textually earlier statements (re-declaration is allowed), and then the symbol table holds exactly the declared names |
| Checking.AnalysisFailureNamesVariable | test.cpp:72-81 | a failing check names a variable of some print that no earlier statement declares, and every earlier print was well scoped |
| Checking.StmtScope | test.cpp:75-79 | a statement adds exactly the name it declares to the table; it passes unless it is a print of an undeclared variable, and then the error is semantic |
| Checking.Analysis | test.cpp:81 | once failed, the pass stays as it is; the table only grows; a failure after a clean start is a semantic error |
| Checking.SemanticAnalyzer.constructor | test.cpp:67 | the symbol table starts empty |
| Checking.SemanticAnalyzer.AnalyzeStmt | test.cpp:75-79 | the outcome and the new table are those of `StmtScope` |
| Checking.SemanticAnalyzer.Analyze | test.cpp:81 | the outcome and the final table are those of `Analysis`, which stops at the first failure |
| Execution.EvaluateExpr | test.cpp:88-94 | the value is the innermost literal, or the stored variable, plus the number of `inc` wrappers; an unassigned variable is a runtime error naming it |
| Execution.EvaluateDefined | test.cpp:91 | evaluation succeeds iff every variable of the expression is in the store |
| Execution.ExecuteAgreesWithReference | test.cpp:88-107 | a run that does not fail prints, for each print in order, its base value plus its `inc` depth; its store holds exactly the declared names, each with its most recent declared value |
| Execution.Step | test.cpp:95-99 | a statement appends at most one value to the output and erases nothing; it never removes a name from the store; only a print can fail, with a runtime error and no output; a declaration leaves its name bound to its literal |
| Execution.Execute | test.cpp:101-107 | once failed, the run stays as it is; the output only grows, by at most one value per statement; the store's names only grow; a failure after a clean start is a runtime error |
| Execution.Interpreter.constructor | test.cpp:87 | the store and the output start empty |
| Execution.Interpreter.ExecuteStmt | test.cpp:95-99 | the outcome, the store and the output are those of `Step`: a declaration inserts or overwrites, a print appends one value or fails |
| Execution.Interpreter.Interpret | test.cpp:101-107 | the outcome, the store and the output are those of `Execute`, which stops at the first failure |
| Unparsing.DecimalString | test.cpp:51 | the decimal numeral of a natural number is a number lexeme that `stoi` reads back as that number |
| Unparsing.ParseExprTokens | test.cpp:49-55 | the parser reads the tokens of any printable expression back as that expression, leaving the rest of the stream |
| Unparsing.ParseStmtTokens | test.cpp:56-58 | the parser reads the tokens of any printable statement back as that statement, leaving the rest of the stream |
| Unparsing.ParseProgramTokens | test.cpp:61 | the statement loop reads the tokens of a printable program back as its statements, in order |
| Unparsing.LexSpelling | test.cpp:31-40 | the lexer reads the lexemes of a well-separated token list back as those tokens, when nothing after them extends the last lexeme |
| Unparsing.LexShow | test.cpp:25-41 | lexing the printed text of a tree gives the tree's tokens followed by end-of-file |
| Unparsing.ParseShow | test.cpp:25-62 | lexing and parsing the printed text of any printable tree gives back the tree |
| Soundness.IncCallSound | test.cpp:49 | an accepted `inc` call consumed exactly `inc ( argument )`, token kind by token kind, what is left is the rest of the input, and the argument's names and values are read off the tokens after `inc (` |
| Soundness.ExprSound | test.cpp:50-55 | an accepted expression consumed exactly the token kinds of the tree returned, what is left is the rest of the input, and its variable is its identifier's lexeme and its literal the `DecimalValue` of its number's lexeme (`ExprReads`) |
| Soundness.VarDeclSound | test.cpp:56 | an accepted declaration consumed exactly `identifier = number ;`, what is left is the rest of the input, and the name is the identifier's lexeme and the value the `DecimalValue` of the number's lexeme |
| Soundness.PrintSound | test.cpp:57 | an accepted print consumed exactly `print ( expression ) ;` for the expression returned, what is left is the rest of the input, and the expression's names and values are read off its tokens |
| Soundness.StmtSound | test.cpp:58 | an accepted statement consumed exactly the token kinds of the statement returned, and its names and values are read off its tokens (`StmtReads`) |
| Soundness.StatementsSound | test.cpp:61 | the token kinds before the end-of-file where the loop stops are those of the statements it adds, one after the other, and each added statement's names and literal values are read off its tokens (`ProgramReads`) |
| Soundness.ProgramSound | test.cpp:61 | an accepted stream starts with the returned program's token kinds, statement after statement, directly followed by end-of-file, and the program's names and literal values are read off those tokens |
| Soundness.CleanProgramSound | test.cpp:61 | on a stream whose only end-of-file is the last token, an accepted stream's kinds are exactly the program's kinds and then end-of-file, and the program's names and literal values are read off those tokens |
| Soundness.LexedProgramSound | test.cpp:60-61 | for any source text, an accepted token stream has exactly the program's token kinds and then end-of-file, so a missing `;` or `)`, a stray token or a trailing fragment is a syntax error; each variable is its identifier's lexeme and each literal the `DecimalValue` of its number's lexeme (so `007` reads as 7); token lines are not compared |
| Driver.Run | test.cpp:114-117 | a run that ends in a syntax or semantic error has printed nothing |
| Driver.RunPipeline | test.cpp:114-116 | the lexer, parser, analyzer and interpreter objects together compute `Run`: a syntax or semantic error prints nothing, and a run prints as it goes |
| Driver.WellScopedRunsClean | test.cpp:72-97 | from a store with every name a well-scoped program reads, execution never fails, and the store's keys become those names plus the declared ones |
| Driver.CheckedProgramRuns | test.cpp:72-97 | after a passing check, the interpreter never reports "used before assignment"; its store's keys equal the checker's declared set, and it prints the reference values |
| Driver.NoRuntimeError | test.cpp:89-116 | no source text ends its run in a runtime error |
| Driver.RunOfParsed | test.cpp:81-116 | once the text parses, the run succeeds iff the program is well scoped and then prints the reference values; otherwise it fails with the analyzer's error, names an undeclared variable of some print and prints nothing |
| Driver.RunShow | test.cpp:114-116 | running the printed text of a printable, well-scoped tree succeeds and prints the reference values |
| Driver.ValidProgramExample | test.cpp:121-122 | `x=10;print(inc(x));print(inc(15));` prints 11 and then 16 |
| Driver.UndeclaredVariableExample | test.cpp:124-125 | `a=1;print(inc(y));` fails the check naming `y`, and prints nothing |
| Driver.MissingArgumentExample | test.cpp:127-128 | `print(inc());` is a syntax error, "Expected expression", not a semantic or runtime error |
| Driver.CallInitialiserExample | test.cpp:56 | `x=inc(1);` is a syntax error at `inc`, "Expected value" on line 1 |

## Left out

- Console output: the stage banners, the "passed" and "finished" messages, `Output:`
  prefixes and `std::cerr`. Printed values are an output sequence, and errors are values.
- Message text: how an error is formatted, including `std::to_string`. An error keeps
  its kind and, where the code provides them, the message passed to `consume`, the lexeme
  found and its line.
- `std::stoi` range errors and the 32-bit `int`. Literals and `inc` use unbounded
  integers. `DecimalValue` has no `out_of_range` failure, and `+1` does not wrap.
- The null-pointer guards and the "Unknown expression type" fallthrough. They cannot be
  reached with a closed datatype.
- Bytes: the model reads the source text as Unicode characters, where the C++ reads
  bytes. A character outside ASCII, such as `é`, takes two bytes in UTF-8. The C++
  lexer makes two one-byte `UNKNOWN` tokens from it, while the model makes one. The only visible difference is
  the lexeme a syntax error reports as found.
- `unique_ptr` ownership and moves, and the locale dependence of `isalpha` and `isdigit`.
- The banners of `run_test`, the printing in its `catch`, and `main` itself. The pipeline
  of `run_test` is `Driver.Run` and `Driver.RunPipeline`. The three programs of `main`
  appear as example lemmas, next to a fourth example: a declaration whose value is a
  call.
  - The declaration example is stated without spaces, as `x=inc(1);`. The form with
    spaces is covered at the token level by `Grammar.DeclarationNeedsNumber`, since
    whitespace only separates tokens.
  - Printing trees back to text (`Unparsing`) covers text without whitespace or line
    breaks, all on one line. It is there to state the round trip, not to model code.
