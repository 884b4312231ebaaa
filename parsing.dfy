/** The parser object: one token of lookahead over a lexer it advances. */
module Parsing {
  import opened Wrappers
  import opened Syntax
  import opened Lexing
  import Grammar

  /** A method's result and the stream it leaves agree with a grammar function's. */
  ghost predicate Agrees<T>(r: Result<T, Error>, spec: Result<Grammar.Parsed<T>, Error>, pending: seq<Token>) {
    match spec
    case Ok(p) => r == Ok(p.value) && pending == p.rest
    case Err(e) => r == Err(e)
  }

  class Parser {
    const lexer: Lexer
    var current: Token

    /** The lookahead is the token the lexer last returned; once it is end-of-file
        the lexer stands at the end of the source. */
    ghost predicate Valid()
      reads this, lexer
    {
      && lexer.Valid()
      && (current.kind == EndOfFile ==>
            lexer.pos == |lexer.source| && current == Token(EndOfFile, "", lexer.line))
    }

    /** The tokens still to be read: the lookahead, then whatever the lexer will return. */
    ghost function Pending(): (ts: seq<Token>)
      reads this, lexer
      requires Valid()
      ensures Grammar.Stream(ts) && ts[0] == current
    {
      if current.kind == EndOfFile then [current]
      else [current] + Tokens(lexer.source, lexer.State())
    }

    /** The constructor primes the lookahead with one call of the lexer. */
    constructor (lex: Lexer)
      requires lex.Valid()
      modifies lex
      ensures lexer == lex && Valid()
      ensures Pending() == Tokens(lex.source, old(lex.State()))
    {
      var t := lex.NextToken();
      lexer := lex;
      current := t;
    }

    method Advance()
      requires Valid()
      modifies this, lexer
      ensures Valid()
      ensures Pending() == Grammar.Next(old(Pending()))
    {
      if current.kind == EndOfFile {
        ScanAtEnd(lexer.source, lexer.State());
      }
      current := lexer.NextToken();
    }

    /** Whether the next token to be read has the given kind. */
    function Check(kind: TokenKind): (b: bool)
      reads this, lexer
      ensures Valid() ==> (b <==> Pending()[0].kind == kind)
    {
      current.kind == kind
    }

    method Consume(kind: TokenKind, msg: string) returns (r: Result<Token, Error>)
      requires Valid()
      modifies this, lexer
      ensures Valid()
      ensures Agrees(r, Grammar.Consume(old(Pending()), kind, msg), Pending())
    {
      if Check(kind) {
        var t := current;
        Advance();
        return Ok(t);
      }
      return Err(Syntax(Unexpected(msg, current.lexeme, current.line)));
    }

    method ParseIncCall() returns (r: Result<Expr, Error>)
      requires Valid()
      modifies this, lexer
      ensures Valid()
      ensures Agrees(r, Grammar.ParseIncCall(old(Pending())), Pending())
      decreases |Pending()|, 0
    {
      var _ :- Consume(Inc, "Expected 'inc'");
      var _ :- Consume(LParen, "Expected '('");
      var arg :- ParseExpr();
      var _ :- Consume(RParen, "Expected ')'");
      return Ok(IncCallExpr(arg));
    }

    method ParseExpr() returns (r: Result<Expr, Error>)
      requires Valid()
      modifies this, lexer
      ensures Valid()
      ensures Agrees(r, Grammar.ParseExpr(old(Pending())), Pending())
      decreases |Pending()|, 1
    {
      if Check(Number) {
        var t := Consume(Number, "Expected number");
        return Ok(NumberExpr(Grammar.DecimalValue(t.value.lexeme)));
      }
      if Check(Identifier) {
        var t := Consume(Identifier, "Expected identifier");
        return Ok(IdentifierExpr(t.value.lexeme));
      }
      if Check(Inc) {
        r := ParseIncCall();
        return;
      }
      return Err(Syntax(ExpectedExpression));
    }

    method ParseVarDecl() returns (r: Result<Stmt, Error>)
      requires Valid()
      modifies this, lexer
      ensures Valid()
      ensures Agrees(r, Grammar.ParseVarDecl(old(Pending())), Pending())
    {
      var name :- Consume(Identifier, "Expected name");
      var _ :- Consume(Assign, "Expected '='");
      var val :- Consume(Number, "Expected value");
      var _ :- Consume(Semicolon, "Expected ';'");
      return Ok(VarDeclStmt(name.lexeme, Grammar.DecimalValue(val.lexeme)));
    }

    method ParsePrintStmt() returns (r: Result<Stmt, Error>)
      requires Valid()
      modifies this, lexer
      ensures Valid()
      ensures Agrees(r, Grammar.ParsePrintStmt(old(Pending())), Pending())
    {
      ghost var ts := Pending();
      var _ :- Consume(Print, "Expected 'print'");
      ghost var afterKeyword := Pending();
      var _ :- Consume(LParen, "Expected '('");
      ghost var afterParen := Pending();
      var e :- ParseExpr();
      assert Grammar.ParseExpr(afterParen) == Ok(Grammar.Parsed(e, Pending()));
      var _ :- Consume(RParen, "Expected ')'");
      var _ :- Consume(Semicolon, "Expected ';'");
      return Ok(PrintStmt(e));
    }

    method ParseStatement() returns (r: Result<Stmt, Error>)
      requires Valid()
      modifies this, lexer
      ensures Valid()
      ensures Agrees(r, Grammar.ParseStatement(old(Pending())), Pending())
    {
      if Check(Identifier) {
        r := ParseVarDecl();
        return;
      }
      if Check(Print) {
        r := ParsePrintStmt();
        return;
      }
      return Err(Syntax(ExpectedStatement));
    }

    method Parse() returns (r: Result<Program, Error>)
      requires Valid()
      modifies this, lexer
      ensures r == Grammar.ParseProgram(old(Pending()))
    {
      var statements: seq<Stmt> := [];
      while !Check(EndOfFile)
        invariant Valid()
        invariant Grammar.ParseProgram(old(Pending())) == Grammar.ParseStatements(Pending(), statements)
        decreases |Pending()|
      {
        var s :- ParseStatement();
        statements := statements + [s];
      }
      return Ok(statements);
    }
  }
}
