/** The recursive-descent grammar of IncLang as functions over the token stream the
    parser still has to read, lookahead first. */
module Grammar {
  import opened Wrappers
  import opened Syntax

  /** A token stream as the lexer delivers it: it ends with end-of-file. */
  predicate Stream(ts: seq<Token>) {
    |ts| > 0 && ts[|ts| - 1].kind == EndOfFile
  }

  /** The stream after one `advance`: at end-of-file the lexer keeps returning it. */
  function Next(ts: seq<Token>): seq<Token>
    requires |ts| > 0
  {
    if |ts| == 1 then ts else ts[1..]
  }

  /** `advance` drops exactly the lookahead, except that the final token is kept: the
      stream left is a suffix one token shorter, or the final token itself. */
  lemma NextMovesOn(ts: seq<Token>)
    requires |ts| > 0
    ensures Stream(ts) ==> Stream(Next(ts))
    ensures |Next(ts)| == if |ts| == 1 then 1 else |ts| - 1
    ensures Next(ts) == ts[|ts| - |Next(ts)|..]
  {
  }

  /** A parsed value and the stream left after it. */
  datatype Parsed<T> = Parsed(value: T, rest: seq<Token>)

  /** `std::stoi` on a digit string, without its overflow check. */
  function DecimalValue(w: string): int {
    if w == [] then 0 else 10 * DecimalValue(w[..|w| - 1]) + (w[|w| - 1] as int - '0' as int)
  }

  /** A digit string never denotes a negative number. */
  lemma {:induction false} DecimalNonNegative(w: string)
    requires forall i :: 0 <= i < |w| ==> '0' <= w[i] <= '9'
    ensures DecimalValue(w) >= 0
    decreases |w|
  {
    if w != [] {
      var u := w[..|w| - 1];
      assert forall i :: 0 <= i < |u| ==> u[i] == w[i];
      DecimalNonNegative(u);
    }
  }

  /** Leading zeros do not change the value: `007` declares 7. */
  lemma {:induction false} DecimalLeadingZero(w: string)
    ensures DecimalValue("0" + w) == DecimalValue(w)
    decreases |w|
  {
    if w != [] {
      var u := "0" + w;
      assert u[..|u| - 1] == "0" + w[..|w| - 1];
      DecimalLeadingZero(w[..|w| - 1]);
    }
  }

  /** `consume`: take the lookahead if it has the expected kind, or fail naming what
      was expected, the lexeme found and its line. */
  function Consume(ts: seq<Token>, kind: TokenKind, msg: string): (r: Result<Parsed<Token>, Error>)
    requires Stream(ts)
    ensures r.Ok? ==> Stream(r.value.rest) && |r.value.rest| <= |ts|
    ensures r.Ok? && kind != EndOfFile ==> |r.value.rest| < |ts|
  {
    if ts[0].kind == kind then Ok(Parsed(ts[0], Next(ts)))
    else Err(Syntax(Unexpected(msg, ts[0].lexeme, ts[0].line)))
  }

  function ParseIncCall(ts: seq<Token>): (r: Result<Parsed<Expr>, Error>)
    requires Stream(ts)
    ensures r.Err? ==> r.error.Syntax?
    ensures r.Ok? ==> Stream(r.value.rest) && |r.value.rest| < |ts|
    decreases |ts|, 0
  {
    var inc :- Consume(ts, Inc, "Expected 'inc'");
    var lparen :- Consume(inc.rest, LParen, "Expected '('");
    var arg :- ParseExpr(lparen.rest);
    var rparen :- Consume(arg.rest, RParen, "Expected ')'");
    Ok(Parsed(IncCallExpr(arg.value), rparen.rest))
  }

  function ParseExpr(ts: seq<Token>): (r: Result<Parsed<Expr>, Error>)
    requires Stream(ts)
    ensures r.Err? ==> r.error.Syntax?
    ensures r.Ok? ==> Stream(r.value.rest) && |r.value.rest| < |ts|
    decreases |ts|, 1
  {
    if ts[0].kind == Number then
      var t := Consume(ts, Number, "Expected number").value;
      Ok(Parsed(NumberExpr(DecimalValue(t.value.lexeme)), t.rest))
    else if ts[0].kind == Identifier then
      var t := Consume(ts, Identifier, "Expected identifier").value;
      Ok(Parsed(IdentifierExpr(t.value.lexeme), t.rest))
    else if ts[0].kind == Inc then
      ParseIncCall(ts)
    else
      Err(Syntax(ExpectedExpression))
  }

  function ParseVarDecl(ts: seq<Token>): (r: Result<Parsed<Stmt>, Error>)
    requires Stream(ts)
    ensures r.Err? ==> r.error.Syntax?
    ensures r.Ok? ==> Stream(r.value.rest) && |r.value.rest| < |ts|
  {
    var name :- Consume(ts, Identifier, "Expected name");
    var assign :- Consume(name.rest, Assign, "Expected '='");
    var val :- Consume(assign.rest, Number, "Expected value");
    var semi :- Consume(val.rest, Semicolon, "Expected ';'");
    Ok(Parsed(VarDeclStmt(name.value.lexeme, DecimalValue(val.value.lexeme)), semi.rest))
  }

  function ParsePrintStmt(ts: seq<Token>): (r: Result<Parsed<Stmt>, Error>)
    requires Stream(ts)
    ensures r.Err? ==> r.error.Syntax?
    ensures r.Ok? ==> Stream(r.value.rest) && |r.value.rest| < |ts|
  {
    var keyword :- Consume(ts, Print, "Expected 'print'");
    var lparen :- Consume(keyword.rest, LParen, "Expected '('");
    var e :- ParseExpr(lparen.rest);
    var rparen :- Consume(e.rest, RParen, "Expected ')'");
    var semi :- Consume(rparen.rest, Semicolon, "Expected ';'");
    Ok(Parsed(PrintStmt(e.value), semi.rest))
  }

  /** Statement dispatch on the lookahead. */
  function ParseStatement(ts: seq<Token>): (r: Result<Parsed<Stmt>, Error>)
    requires Stream(ts)
    ensures r.Err? ==> r.error.Syntax?
    ensures r.Ok? ==> Stream(r.value.rest) && |r.value.rest| < |ts|
  {
    if ts[0].kind == Identifier then ParseVarDecl(ts)
    else if ts[0].kind == Print then ParsePrintStmt(ts)
    else Err(Syntax(ExpectedStatement))
  }

  /** The loop of `parse`: statements are appended to `done` until the lookahead is
      end-of-file; the first failure aborts. */
  function ParseStatements(ts: seq<Token>, done: seq<Stmt>): (r: Result<seq<Stmt>, Error>)
    requires Stream(ts)
    ensures r.Err? ==> r.error.Syntax?
    decreases |ts|
  {
    if ts[0].kind == EndOfFile then Ok(done)
    else
      var s :- ParseStatement(ts);
      ParseStatements(s.rest, done + [s.value])
  }

  function ParseProgram(ts: seq<Token>): (r: Result<Program, Error>)
    requires Stream(ts)
    ensures r.Err? ==> r.error.Syntax?
  {
    ParseStatements(ts, [])
  }

  // Properties of the grammar.

  /** A statement starts with an identifier (a declaration) or `print`; on any other
      lookahead the parser reports that it expected a statement. */
  lemma StatementDispatch(ts: seq<Token>)
    requires Stream(ts)
    ensures ts[0].kind != Identifier && ts[0].kind != Print ==>
              ParseStatement(ts) == Err(Syntax(ExpectedStatement))
    ensures ParseStatement(ts).Ok? && ts[0].kind == Identifier ==>
              ParseStatement(ts).value.value == VarDeclStmt(ts[0].lexeme, DecimalValue(ts[2].lexeme))
    ensures ParseStatement(ts).Ok? && ts[0].kind == Print ==> ParseStatement(ts).value.value.PrintStmt?
  {
    if ParseStatement(ts).Ok? && ts[0].kind == Identifier {
      assert |ts| > 2 && ts[1..][1..] == ts[2..];
    }
  }

  /** `parse` stops exactly at end-of-file, and every statement it returns was parsed
      after the ones it already had. */
  lemma {:induction false} StatementsExtend(ts: seq<Token>, done: seq<Stmt>)
    requires Stream(ts)
    ensures ts[0].kind == EndOfFile ==> ParseStatements(ts, done) == Ok(done)
    ensures ts[0].kind != EndOfFile && ParseStatements(ts, done).Ok? ==>
              ParseStatement(ts).Ok? && |ParseStatements(ts, done).value| > |done|
    ensures ParseStatements(ts, done).Ok? ==>
              |ParseStatements(ts, done).value| >= |done| &&
              ParseStatements(ts, done).value[..|done|] == done
    decreases |ts|
  {
    if ts[0].kind != EndOfFile && ParseStatement(ts).Ok? {
      var s := ParseStatement(ts).value;
      StatementsExtend(s.rest, done + [s.value]);
      if ParseStatements(ts, done).Ok? {
        var r := ParseStatements(ts, done).value;
        assert r[..|done| + 1][..|done|] == r[..|done|];
        assert (done + [s.value])[..|done|] == done;
      }
    }
  }

  /** A declaration's right-hand side must be a number token: anything else, an `inc`
      call for one, is rejected where the value was expected. */
  lemma DeclarationNeedsNumber(ts: seq<Token>)
    requires Stream(ts) && |ts| > 2
    requires ts[0].kind == Identifier && ts[1].kind == Assign && ts[2].kind != Number
    ensures ParseStatement(ts) == Err(Syntax(Unexpected("Expected value", ts[2].lexeme, ts[2].line)))
  {
    assert ts[1..][1..] == ts[2..];
  }

  /** A declaration must end with `;`: whatever follows the number is named in the error. */
  lemma DeclarationNeedsSemicolon(ts: seq<Token>)
    requires Stream(ts) && |ts| > 3
    requires ts[0].kind == Identifier && ts[1].kind == Assign && ts[2].kind == Number
    requires ts[3].kind != Semicolon
    ensures ParseStatement(ts) == Err(Syntax(Unexpected("Expected ';'", ts[3].lexeme, ts[3].line)))
  {
    assert ts[1..][1..] == ts[2..];
    assert ts[2..][1..] == ts[3..];
  }

  /** A print's expression must be followed by `)`: whatever follows it is named in the
      error. */
  lemma PrintNeedsClosingParen(ts: seq<Token>, e: Expr, rest: seq<Token>)
    requires Stream(ts) && |ts| > 2
    requires ts[0].kind == Print && ts[1].kind == LParen
    requires ParseExpr(ts[2..]) == Ok(Parsed(e, rest)) && rest[0].kind != RParen
    ensures ParseStatement(ts) == Err(Syntax(Unexpected("Expected ')'", rest[0].lexeme, rest[0].line)))
  {
    assert ts[1..][1..] == ts[2..];
  }

  /** `inc()`: the argument's lookahead is the closing parenthesis, so the call fails as
      a missing expression. */
  lemma IncWithoutArgument(ts: seq<Token>)
    requires Stream(ts) && |ts| > 2
    requires ts[0].kind == Inc && ts[1].kind == LParen && ts[2].kind == RParen
    ensures ParseExpr(ts) == Err(Syntax(ExpectedExpression))
  {
    assert ts[1..][1..] == ts[2..];
    assert ParseExpr(ts[2..]) == Err(Syntax(ExpectedExpression));
  }
}
