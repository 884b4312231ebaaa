/** The converse of reading printed trees back: whatever the parser accepts is
    grammatical. Every accepted prefix has exactly the token kinds of the tree the
    parser returns for it, the tree's names and literal values are read off those
    tokens, and what is left is the rest of the input. */
module Soundness {
  import opened Wrappers
  import opened Syntax
  import opened Lexing
  import opened Grammar

  /** The kinds of a token list, in order. */
  function Kinds(ts: seq<Token>): seq<TokenKind> {
    seq(|ts|, i requires 0 <= i < |ts| => ts[i].kind)
  }

  /** The token kinds the grammar spells an expression with. */
  function ExprKinds(e: Expr): seq<TokenKind> {
    match e
    case NumberExpr(_) => [Number]
    case IdentifierExpr(_) => [Identifier]
    case IncCallExpr(a) => [Inc, LParen] + ExprKinds(a) + [RParen]
  }

  /** A declaration is `name = number ;`; a print is `print ( expression ) ;`. */
  function StmtKinds(s: Stmt): seq<TokenKind> {
    match s
    case VarDeclStmt(_, _) => [Identifier, Assign, Number, Semicolon]
    case PrintStmt(e) => [Print, LParen] + ExprKinds(e) + [RParen, Semicolon]
  }

  function ProgramKinds(p: Program): seq<TokenKind>
    decreases |p|
  {
    if p == [] then [] else StmtKinds(p[0]) + ProgramKinds(p[1..])
  }

  /** The names and values an expression holds, read off the tokens from where it
      starts: a variable is its identifier's lexeme, a literal the `DecimalValue` of its
      number's lexeme, and an `inc` call's argument starts two tokens later. */
  ghost predicate ExprReads(e: Expr, ts: seq<Token>) {
    match e
    case NumberExpr(v) => |ts| > 0 && v == DecimalValue(ts[0].lexeme)
    case IdentifierExpr(n) => |ts| > 0 && n == ts[0].lexeme
    case IncCallExpr(a) => |ts| > 2 && ExprReads(a, ts[2..])
  }

  /** A declaration's name is its first lexeme and its value that of its third; a
      print's expression starts with the third token. */
  ghost predicate StmtReads(s: Stmt, ts: seq<Token>) {
    match s
    case VarDeclStmt(n, v) => |ts| > 2 && n == ts[0].lexeme && v == DecimalValue(ts[2].lexeme)
    case PrintStmt(e) => |ts| > 2 && ExprReads(e, ts[2..])
  }

  /** Each statement reads its names and values off the tokens from where it starts, and
      the next statement starts after the kinds of this one. */
  ghost predicate ProgramReads(p: Program, ts: seq<Token>)
    decreases |p|
  {
    p == [] ||
    (|StmtKinds(p[0])| <= |ts| && StmtReads(p[0], ts) && ProgramReads(p[1..], ts[|StmtKinds(p[0])|..]))
  }

  /** `ts` is a prefix of kinds `ks` followed by `rest`. */
  ghost predicate Splits(ts: seq<Token>, rest: seq<Token>, ks: seq<TokenKind>) {
    |rest| <= |ts| && ts[|ts| - |rest|..] == rest && Kinds(ts[..|ts| - |rest|]) == ks
  }

  lemma KindsAppend(a: seq<Token>, b: seq<Token>)
    ensures Kinds(a + b) == Kinds(a) + Kinds(b)
  {
  }

  lemma SplitsChain(ts: seq<Token>, mid: seq<Token>, rest: seq<Token>, k1: seq<TokenKind>, k2: seq<TokenKind>)
    requires Splits(ts, mid, k1) && Splits(mid, rest, k2)
    ensures Splits(ts, rest, k1 + k2)
  {
    var a, b := ts[..|ts| - |mid|], mid[..|mid| - |rest|];
    assert ts == a + mid && mid == b + rest;
    assert ts == (a + b) + rest;
    assert ts[..|ts| - |rest|] == a + b;
    KindsAppend(a, b);
  }

  /** A successful `consume` of a kind other than end-of-file takes exactly the
      lookahead, which has that kind. */
  lemma ConsumeSplits(ts: seq<Token>, kind: TokenKind, msg: string, t: Token, rest: seq<Token>)
    requires Stream(ts) && kind != EndOfFile
    requires Consume(ts, kind, msg) == Ok(Parsed(t, rest))
    ensures t == ts[0] && Splits(ts, rest, [kind])
    ensures |ts| > 1 && rest == ts[1..]
  {
    assert |ts| > 1;
    assert ts[..1] == [ts[0]];
  }

  /** Three tokens, a middle part and one more token. */
  lemma Chain(ts: seq<Token>, r1: seq<Token>, r2: seq<Token>, r3: seq<Token>, r4: seq<Token>,
              k1: TokenKind, k2: TokenKind, mid: seq<TokenKind>, k4: TokenKind)
    requires Splits(ts, r1, [k1]) && Splits(r1, r2, [k2]) && Splits(r2, r3, mid) && Splits(r3, r4, [k4])
    ensures Splits(ts, r4, [k1, k2] + mid + [k4])
  {
    SplitsChain(ts, r1, r2, [k1], [k2]);
    SplitsChain(ts, r2, r3, [k1] + [k2], mid);
    SplitsChain(ts, r3, r4, [k1] + [k2] + mid, [k4]);
    assert [k1] + [k2] + mid + [k4] == [k1, k2] + mid + [k4];
  }

  lemma DeclarationKinds(s: Stmt)
    requires s.VarDeclStmt?
    ensures StmtKinds(s) == [Identifier, Assign] + [Number] + [Semicolon]
  {
  }

  lemma IncKinds(a: Expr)
    ensures ExprKinds(IncCallExpr(a)) == [Inc, LParen] + ExprKinds(a) + [RParen]
  {
  }

  lemma PrintKinds(e: Expr)
    ensures StmtKinds(PrintStmt(e)) == [Print, LParen] + ExprKinds(e) + [RParen] + [Semicolon]
  {
  }

  lemma {:induction false} IncCallSound(ts: seq<Token>)
    requires Stream(ts)
    ensures ParseIncCall(ts).Ok? ==>
              Splits(ts, ParseIncCall(ts).value.rest, ExprKinds(ParseIncCall(ts).value.value)) &&
              ExprReads(ParseIncCall(ts).value.value, ts)
    decreases |ts|, 0
  {
    var r := ParseIncCall(ts);
    if r.Ok? {
      var inc := Consume(ts, Inc, "Expected 'inc'").value;
      var lparen := Consume(inc.rest, LParen, "Expected '('").value;
      var arg := ParseExpr(lparen.rest).value;
      var rparen := Consume(arg.rest, RParen, "Expected ')'").value;
      assert r.value == Parsed(IncCallExpr(arg.value), rparen.rest);
      ConsumeSplits(ts, Inc, "Expected 'inc'", inc.value, inc.rest);
      ConsumeSplits(inc.rest, LParen, "Expected '('", lparen.value, lparen.rest);
      ExprSound(lparen.rest);
      ConsumeSplits(arg.rest, RParen, "Expected ')'", rparen.value, rparen.rest);
      Chain(ts, inc.rest, lparen.rest, arg.rest, rparen.rest, Inc, LParen, ExprKinds(arg.value), RParen);
      IncKinds(arg.value);
    }
  }

  /** An accepted expression is exactly the tokens of the tree returned for it. */
  lemma {:induction false} ExprSound(ts: seq<Token>)
    requires Stream(ts)
    ensures ParseExpr(ts).Ok? ==>
              Splits(ts, ParseExpr(ts).value.rest, ExprKinds(ParseExpr(ts).value.value)) &&
              ExprReads(ParseExpr(ts).value.value, ts)
    decreases |ts|, 1
  {
    if ts[0].kind == Number {
      var t := Consume(ts, Number, "Expected number").value;
      ConsumeSplits(ts, Number, "Expected number", t.value, t.rest);
    } else if ts[0].kind == Identifier {
      var t := Consume(ts, Identifier, "Expected identifier").value;
      ConsumeSplits(ts, Identifier, "Expected identifier", t.value, t.rest);
    } else if ts[0].kind == Inc {
      IncCallSound(ts);
    }
  }

  lemma VarDeclSound(ts: seq<Token>)
    requires Stream(ts)
    ensures ParseVarDecl(ts).Ok? ==>
              Splits(ts, ParseVarDecl(ts).value.rest, StmtKinds(ParseVarDecl(ts).value.value)) &&
              StmtReads(ParseVarDecl(ts).value.value, ts)
  {
    var r := ParseVarDecl(ts);
    if r.Ok? {
      var name := Consume(ts, Identifier, "Expected name").value;
      var assign := Consume(name.rest, Assign, "Expected '='").value;
      var val := Consume(assign.rest, Number, "Expected value").value;
      var semi := Consume(val.rest, Semicolon, "Expected ';'").value;
      assert r.value.rest == semi.rest && r.value.value.VarDeclStmt?;
      ConsumeSplits(ts, Identifier, "Expected name", name.value, name.rest);
      ConsumeSplits(name.rest, Assign, "Expected '='", assign.value, assign.rest);
      ConsumeSplits(assign.rest, Number, "Expected value", val.value, val.rest);
      ConsumeSplits(val.rest, Semicolon, "Expected ';'", semi.value, semi.rest);
      Chain(ts, name.rest, assign.rest, val.rest, semi.rest, Identifier, Assign, [Number], Semicolon);
      DeclarationKinds(r.value.value);
    }
  }

  lemma PrintSound(ts: seq<Token>)
    requires Stream(ts)
    ensures ParsePrintStmt(ts).Ok? ==>
              Splits(ts, ParsePrintStmt(ts).value.rest, StmtKinds(ParsePrintStmt(ts).value.value)) &&
              StmtReads(ParsePrintStmt(ts).value.value, ts)
  {
    var r := ParsePrintStmt(ts);
    if r.Ok? {
      var keyword := Consume(ts, Print, "Expected 'print'").value;
      var lparen := Consume(keyword.rest, LParen, "Expected '('").value;
      var e := ParseExpr(lparen.rest).value;
      var rparen := Consume(e.rest, RParen, "Expected ')'").value;
      var semi := Consume(rparen.rest, Semicolon, "Expected ';'").value;
      assert r.value == Parsed(PrintStmt(e.value), semi.rest);
      ConsumeSplits(ts, Print, "Expected 'print'", keyword.value, keyword.rest);
      ConsumeSplits(keyword.rest, LParen, "Expected '('", lparen.value, lparen.rest);
      ExprSound(lparen.rest);
      ConsumeSplits(e.rest, RParen, "Expected ')'", rparen.value, rparen.rest);
      ConsumeSplits(rparen.rest, Semicolon, "Expected ';'", semi.value, semi.rest);
      Chain(ts, keyword.rest, lparen.rest, e.rest, rparen.rest, Print, LParen, ExprKinds(e.value), RParen);
      SplitsChain(ts, rparen.rest, semi.rest, [Print, LParen] + ExprKinds(e.value) + [RParen], [Semicolon]);
      PrintKinds(e.value);
    }
  }

  /** An accepted statement is exactly the tokens of the statement returned for it. */
  lemma StmtSound(ts: seq<Token>)
    requires Stream(ts)
    ensures ParseStatement(ts).Ok? ==>
              Splits(ts, ParseStatement(ts).value.rest, StmtKinds(ParseStatement(ts).value.value)) &&
              StmtReads(ParseStatement(ts).value.value, ts)
  {
    if ts[0].kind == Identifier {
      VarDeclSound(ts);
    } else if ts[0].kind == Print {
      PrintSound(ts);
    }
  }

  /** Looking `m` tokens into the rest of a split. */
  lemma SplitsPrefix(ts: seq<Token>, rest: seq<Token>, ks: seq<TokenKind>, m: nat)
    requires Splits(ts, rest, ks) && m < |rest|
    ensures |ks| + m < |ts| && ts[|ks| + m] == rest[m]
    ensures Kinds(ts[..|ks| + m]) == ks + Kinds(rest[..m])
  {
    var a := ts[..|ts| - |rest|];
    assert ts == a + rest;
    assert ts[..|ks| + m] == a + rest[..m];
    KindsAppend(a, rest[..m]);
  }

  /** What `parse` added after `done`, when its first addition is `s`. */
  lemma AddedCons(x: seq<Stmt>, done: seq<Stmt>, s: Stmt)
    requires |done| + 1 <= |x| && x[..|done| + 1] == done + [s]
    ensures x[|done|..] == [s] + x[|done| + 1..]
  {
    assert x[|done|] == (done + [s])[|done|];
  }

  lemma ProgramKindsCons(s: Stmt, tail: Program)
    ensures ProgramKinds([s] + tail) == StmtKinds(s) + ProgramKinds(tail)
  {
    assert ([s] + tail)[1..] == tail;
  }

  /** A statement read off the front of `ts`, followed by a program read off what it
      leaves. */
  lemma ProgramReadsCons(s: Stmt, tail: Program, ts: seq<Token>, rest: seq<Token>)
    requires Splits(ts, rest, StmtKinds(s)) && StmtReads(s, ts) && ProgramReads(tail, rest)
    ensures ProgramReads([s] + tail, ts)
  {
    assert |Kinds(ts[..|ts| - |rest|])| == |ts| - |rest|;
    assert ([s] + tail)[0] == s && ([s] + tail)[1..] == tail;
  }

  /** The loop of `parse`: the statements it adds are spelled by the tokens before the
      end-of-file it stops at. */
  lemma {:induction false} StatementsSound(ts: seq<Token>, done: seq<Stmt>)
    requires Stream(ts)
    ensures ParseStatements(ts, done).Ok? ==>
              |done| <= |ParseStatements(ts, done).value| &&
              var added := ParseStatements(ts, done).value[|done|..];
              var m := |ProgramKinds(added)|;
              m < |ts| && Kinds(ts[..m]) == ProgramKinds(added) && ts[m].kind == EndOfFile &&
              ProgramReads(added, ts)
    decreases |ts|
  {
    StatementsExtend(ts, done);
    var r := ParseStatements(ts, done);
    if r.Ok? {
      if ts[0].kind == EndOfFile {
        assert r.value[|done|..] == [];
        assert Kinds(ts[..0]) == [];
      } else {
        StmtSound(ts);
        var s := ParseStatement(ts).value;
        assert r == ParseStatements(s.rest, done + [s.value]);
        StatementsSound(s.rest, done + [s.value]);
        StatementsExtend(s.rest, done + [s.value]);
        var tail := r.value[|done| + 1..];
        AddedCons(r.value, done, s.value);
        ProgramKindsCons(s.value, tail);
        SplitsPrefix(ts, s.rest, StmtKinds(s.value), |ProgramKinds(tail)|);
        ProgramReadsCons(s.value, tail, ts, s.rest);
      }
    }
  }

  /** An accepted stream is the program's statements, spelled one after the other, up to
      the first end-of-file. */
  lemma ProgramSound(ts: seq<Token>)
    requires Stream(ts)
    ensures ParseProgram(ts).Ok? ==>
              var m := |ProgramKinds(ParseProgram(ts).value)|;
              m < |ts| && Kinds(ts[..m]) == ProgramKinds(ParseProgram(ts).value) && ts[m].kind == EndOfFile &&
              ProgramReads(ParseProgram(ts).value, ts)
  {
    StatementsSound(ts, []);
    if ParseProgram(ts).Ok? {
      assert ParseProgram(ts).value[0..] == ParseProgram(ts).value;
    }
  }

  /** For a stream the lexer produced, where only the last token is end-of-file, the
      accepted tokens have exactly the program's kinds and then end-of-file: a missing
      `;` or `)`, a stray token or a trailing fragment is always rejected. */
  lemma CleanProgramSound(ts: seq<Token>)
    requires Stream(ts) && forall i :: 0 <= i < |ts| - 1 ==> ts[i].kind != EndOfFile
    ensures ParseProgram(ts).Ok? ==>
              Kinds(ts) == ProgramKinds(ParseProgram(ts).value) + [EndOfFile] &&
              ProgramReads(ParseProgram(ts).value, ts)
  {
    ProgramSound(ts);
    if ParseProgram(ts).Ok? {
      var m := |ProgramKinds(ParseProgram(ts).value)|;
      assert m == |ts| - 1;
      LastKind(ts);
    }
  }

  lemma LastKind(ts: seq<Token>)
    requires |ts| > 0
    ensures Kinds(ts) == Kinds(ts[..|ts| - 1]) + [ts[|ts| - 1].kind]
  {
    assert ts == ts[..|ts| - 1] + [ts[|ts| - 1]];
    KindsAppend(ts[..|ts| - 1], [ts[|ts| - 1]]);
  }

  lemma LexedProgramSound(src: string)
    ensures var ts := Tokens(src, Cursor(0, 1));
            ParseProgram(ts).Ok? ==>
              Kinds(ts) == ProgramKinds(ParseProgram(ts).value) + [EndOfFile] &&
              ProgramReads(ParseProgram(ts).value, ts)
  {
    CleanProgramSound(Tokens(src, Cursor(0, 1)));
  }
}
