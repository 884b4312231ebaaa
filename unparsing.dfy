/** A printer from syntax trees back to IncLang source, and the round trip through
    the lexer and the parser: every tree the grammar can produce is read back as itself. */
module Unparsing {
  import opened Wrappers
  import opened Syntax
  import opened Lexing
  import opened Grammar

  function DigitChar(d: nat): char
    requires d < 10
  {
    ('0' as int + d) as char
  }

  /** The decimal numeral of `n`; `std::stoi` reads it back as `n`. */
  function DecimalString(n: nat): (w: string)
    ensures IsNumberLexeme(w)
    ensures DecimalValue(w) == n
    decreases n
  {
    if n < 10 then [DigitChar(n)]
    else
      var w := DecimalString(n / 10) + [DigitChar(n % 10)];
      assert w[..|w| - 1] == DecimalString(n / 10);
      w
  }

  /** A name the lexer reads back as an identifier: not a keyword. */
  predicate IsName(n: string) {
    IsIdentifierLexeme(n) && KeywordKind(n) == Identifier
  }

  /** Trees that have a source text: names are identifiers and literals are numerals. */
  predicate PrintableExpr(e: Expr) {
    match e
    case NumberExpr(v) => v >= 0
    case IdentifierExpr(n) => IsName(n)
    case IncCallExpr(a) => PrintableExpr(a)
  }

  predicate PrintableStmt(s: Stmt) {
    match s
    case VarDeclStmt(n, v) => IsName(n) && v >= 0
    case PrintStmt(e) => PrintableExpr(e)
  }

  predicate Printable(p: Program) {
    forall i :: 0 <= i < |p| ==> PrintableStmt(p[i])
  }

  function ShowExpr(e: Expr): string
    requires PrintableExpr(e)
  {
    match e
    case NumberExpr(v) => DecimalString(v)
    case IdentifierExpr(n) => n
    case IncCallExpr(a) => "inc(" + ShowExpr(a) + ")"
  }

  function ShowStmt(s: Stmt): string
    requires PrintableStmt(s)
  {
    match s
    case VarDeclStmt(n, v) => n + "=" + DecimalString(v) + ";"
    case PrintStmt(e) => "print(" + ShowExpr(e) + ");"
  }

  function Show(p: Program): string
    requires Printable(p)
  {
    if p == [] then "" else ShowStmt(p[0]) + Show(p[1..])
  }

  /** A program's text is its first statement's text followed by the rest's. */
  lemma ShowCons(s: Stmt, rest: Program)
    requires PrintableStmt(s) && Printable(rest)
    ensures Printable([s] + rest) && Show([s] + rest) == ShowStmt(s) + Show(rest)
  {
    assert ([s] + rest)[1..] == rest;
  }

  // The tokens the printed text consists of, all on line `l`.

  function ExprTokens(e: Expr, l: int): seq<Token>
    requires PrintableExpr(e)
  {
    match e
    case NumberExpr(v) => [Token(Number, DecimalString(v), l)]
    case IdentifierExpr(n) => [Token(Identifier, n, l)]
    case IncCallExpr(a) =>
      [Token(Inc, "inc", l), Token(LParen, "(", l)] + ExprTokens(a, l) + [Token(RParen, ")", l)]
  }

  function StmtTokens(s: Stmt, l: int): seq<Token>
    requires PrintableStmt(s)
  {
    match s
    case VarDeclStmt(n, v) =>
      [Token(Identifier, n, l), Token(Assign, "=", l), Token(Number, DecimalString(v), l), Token(Semicolon, ";", l)]
    case PrintStmt(e) =>
      [Token(Print, "print", l), Token(LParen, "(", l)] + ExprTokens(e, l) +
      [Token(RParen, ")", l), Token(Semicolon, ";", l)]
  }

  function ProgramTokens(p: Program, l: int): seq<Token>
    requires Printable(p)
  {
    if p == [] then [] else StmtTokens(p[0], l) + ProgramTokens(p[1..], l)
  }

  // Parsing the tokens of a tree.

  /** A lookahead of the expected kind is taken, and the stream moves on by one. */
  lemma Take(ts: seq<Token>, t: Token, rest: seq<Token>, msg: string)
    requires ts == [t] + rest && Stream(rest) && t.kind != EndOfFile
    ensures Stream(ts)
    ensures Consume(ts, t.kind, msg) == Ok(Parsed(t, rest))
  {
    assert ts[1..] == rest;
  }

  lemma ParseIncCallCons(ts: seq<Token>, r0: seq<Token>, inner: seq<Token>, r1: seq<Token>, rest: seq<Token>,
                         a: Expr, l: int)
    requires Stream(rest) && Stream(inner)
    requires ts == [Token(Inc, "inc", l)] + r0 && r0 == [Token(LParen, "(", l)] + inner
    requires r1 == [Token(RParen, ")", l)] + rest
    requires ParseExpr(inner) == Ok(Parsed(a, r1))
    ensures Stream(ts)
    ensures ParseExpr(ts) == Ok(Parsed(IncCallExpr(a), rest))
  {
    Take(r1, Token(RParen, ")", l), rest, "Expected ')'");
    Take(r0, Token(LParen, "(", l), inner, "Expected '('");
    Take(ts, Token(Inc, "inc", l), r0, "Expected 'inc'");
  }

  lemma IncTokensSplit(a: Expr, l: int, rest: seq<Token>)
    requires PrintableExpr(a)
    ensures ExprTokens(IncCallExpr(a), l) + rest ==
            [Token(Inc, "inc", l)] + ([Token(LParen, "(", l)] + (ExprTokens(a, l) + ([Token(RParen, ")", l)] + rest)))
  {
  }

  lemma ParseIncTokens(a: Expr, l: int, rest: seq<Token>)
    requires PrintableExpr(a) && Stream(rest)
    requires Stream(ExprTokens(a, l) + ([Token(RParen, ")", l)] + rest))
    requires ParseExpr(ExprTokens(a, l) + ([Token(RParen, ")", l)] + rest)) == Ok(Parsed(a, [Token(RParen, ")", l)] + rest))
    ensures Stream(ExprTokens(IncCallExpr(a), l) + rest)
    ensures ParseExpr(ExprTokens(IncCallExpr(a), l) + rest) == Ok(Parsed(IncCallExpr(a), rest))
  {
    var r1 := [Token(RParen, ")", l)] + rest;
    var inner := ExprTokens(a, l) + r1;
    IncTokensSplit(a, l, rest);
    ParseIncCallCons(ExprTokens(IncCallExpr(a), l) + rest, [Token(LParen, "(", l)] + inner, inner, r1, rest, a, l);
  }

  /** An expression's tokens parse back to it and leave the rest of the stream. */
  lemma {:induction false} ParseExprTokens(e: Expr, l: int, rest: seq<Token>)
    requires PrintableExpr(e) && Stream(rest)
    ensures Stream(ExprTokens(e, l) + rest)
    ensures ParseExpr(ExprTokens(e, l) + rest) == Ok(Parsed(e, rest))
  {
    match e
    case NumberExpr(v) =>
      Take(ExprTokens(e, l) + rest, Token(Number, DecimalString(v), l), rest, "Expected number");
    case IdentifierExpr(n) =>
      Take(ExprTokens(e, l) + rest, Token(Identifier, n, l), rest, "Expected identifier");
    case IncCallExpr(a) =>
      ParseExprTokens(a, l, [Token(RParen, ")", l)] + rest);
      ParseIncTokens(a, l, rest);
  }

  lemma ParseVarDeclCons(ts: seq<Token>, r0: seq<Token>, r1: seq<Token>, r2: seq<Token>, rest: seq<Token>,
                         n: string, w: string, l: int)
    requires Stream(rest)
    requires ts == [Token(Identifier, n, l)] + r0 && r0 == [Token(Assign, "=", l)] + r1
    requires r1 == [Token(Number, w, l)] + r2 && r2 == [Token(Semicolon, ";", l)] + rest
    ensures Stream(ts)
    ensures ParseStatement(ts) == Ok(Parsed(VarDeclStmt(n, DecimalValue(w)), rest))
  {
    Take(r2, Token(Semicolon, ";", l), rest, "Expected ';'");
    Take(r1, Token(Number, w, l), r2, "Expected value");
    Take(r0, Token(Assign, "=", l), r1, "Expected '='");
    Take(ts, Token(Identifier, n, l), r0, "Expected name");
  }

  lemma ParseVarDeclTokens(n: string, v: int, l: int, rest: seq<Token>)
    requires IsName(n) && v >= 0 && Stream(rest)
    ensures Stream(StmtTokens(VarDeclStmt(n, v), l) + rest)
    ensures ParseStatement(StmtTokens(VarDeclStmt(n, v), l) + rest) == Ok(Parsed(VarDeclStmt(n, v), rest))
  {
    var r2 := [Token(Semicolon, ";", l)] + rest;
    var r1 := [Token(Number, DecimalString(v), l)] + r2;
    var r0 := [Token(Assign, "=", l)] + r1;
    assert StmtTokens(VarDeclStmt(n, v), l) + rest == [Token(Identifier, n, l)] + r0;
    ParseVarDeclCons(StmtTokens(VarDeclStmt(n, v), l) + rest, r0, r1, r2, rest, n, DecimalString(v), l);
  }

  lemma ParsePrintBody(ts: seq<Token>, r0: seq<Token>, inner: seq<Token>, r1: seq<Token>, r2: seq<Token>,
                       rest: seq<Token>, e: Expr, l: int)
    requires Stream(rest) && Stream(inner)
    requires ts == [Token(Print, "print", l)] + r0 && r0 == [Token(LParen, "(", l)] + inner
    requires r1 == [Token(RParen, ")", l)] + r2 && r2 == [Token(Semicolon, ";", l)] + rest
    requires ParseExpr(inner) == Ok(Parsed(e, r1))
    ensures Stream(ts)
    ensures ParsePrintStmt(ts) == Ok(Parsed(PrintStmt(e), rest))
  {
    Take(r2, Token(Semicolon, ";", l), rest, "Expected ';'");
    Take(r1, Token(RParen, ")", l), r2, "Expected ')'");
    Take(r0, Token(LParen, "(", l), inner, "Expected '('");
    Take(ts, Token(Print, "print", l), r0, "Expected 'print'");
  }

  lemma ParsePrintCons(ts: seq<Token>, r0: seq<Token>, inner: seq<Token>, r1: seq<Token>, r2: seq<Token>,
                       rest: seq<Token>, e: Expr, l: int)
    requires Stream(rest) && Stream(inner)
    requires ts == [Token(Print, "print", l)] + r0 && r0 == [Token(LParen, "(", l)] + inner
    requires r1 == [Token(RParen, ")", l)] + r2 && r2 == [Token(Semicolon, ";", l)] + rest
    requires ParseExpr(inner) == Ok(Parsed(e, r1))
    ensures Stream(ts)
    ensures ParseStatement(ts) == Ok(Parsed(PrintStmt(e), rest))
  {
    ParsePrintBody(ts, r0, inner, r1, r2, rest, e, l);
    assert ts[0].kind == Print;
  }

  lemma PrintTokensSplit(e: Expr, l: int, rest: seq<Token>)
    requires PrintableExpr(e)
    ensures StmtTokens(PrintStmt(e), l) + rest ==
            [Token(Print, "print", l)] + ([Token(LParen, "(", l)] +
            (ExprTokens(e, l) + ([Token(RParen, ")", l)] + ([Token(Semicolon, ";", l)] + rest))))
  {
  }

  lemma ParsePrintTokens(e: Expr, l: int, rest: seq<Token>)
    requires PrintableExpr(e) && Stream(rest)
    ensures Stream(StmtTokens(PrintStmt(e), l) + rest)
    ensures ParseStatement(StmtTokens(PrintStmt(e), l) + rest) == Ok(Parsed(PrintStmt(e), rest))
  {
    var r2 := [Token(Semicolon, ";", l)] + rest;
    var r1 := [Token(RParen, ")", l)] + r2;
    var inner := ExprTokens(e, l) + r1;
    ParseExprTokens(e, l, r1);
    PrintTokensSplit(e, l, rest);
    ParsePrintCons(StmtTokens(PrintStmt(e), l) + rest, [Token(LParen, "(", l)] + inner, inner, r1, r2, rest, e, l);
  }

  /** A statement's tokens parse back to it; dispatch goes by its first token. */
  lemma ParseStmtTokens(s: Stmt, l: int, rest: seq<Token>)
    requires PrintableStmt(s) && Stream(rest)
    ensures Stream(StmtTokens(s, l) + rest)
    ensures (StmtTokens(s, l) + rest)[0].kind != EndOfFile
    ensures ParseStatement(StmtTokens(s, l) + rest) == Ok(Parsed(s, rest))
  {
    match s
    case VarDeclStmt(n, v) => ParseVarDeclTokens(n, v, l, rest);
    case PrintStmt(e) => ParsePrintTokens(e, l, rest);
  }

  lemma PrintableTail(p: Program)
    requires Printable(p) && p != []
    ensures PrintableStmt(p[0]) && Printable(p[1..])
  {
    forall i | 0 <= i < |p[1..]| ensures PrintableStmt(p[1..][i]) { assert p[1..][i] == p[i + 1]; }
  }

  lemma ProgramTokensSplit(p: Program, l: int, rest: seq<Token>)
    requires Printable(p) && p != []
    ensures PrintableStmt(p[0]) && Printable(p[1..])
    ensures ProgramTokens(p, l) + rest == StmtTokens(p[0], l) + (ProgramTokens(p[1..], l) + rest)
  {
    PrintableTail(p);
  }

  lemma ParseStatementsStep(ts: seq<Token>, done: seq<Stmt>, s: Stmt, after: seq<Token>)
    requires Stream(ts) && ts[0].kind != EndOfFile
    requires ParseStatement(ts) == Ok(Parsed(s, after))
    ensures ParseStatements(ts, done) == ParseStatements(after, done + [s])
  {
  }

  lemma AppendFront(done: seq<Stmt>, p: seq<Stmt>)
    requires p != []
    ensures done + [p[0]] + p[1..] == done + p
  {
  }

  /** The tokens of a program are parsed statement by statement, and parsing then goes
      on with whatever follows: an error there is the first one reported. */
  lemma {:induction false} ParseProgramTokens(p: Program, l: int, rest: seq<Token>, done: seq<Stmt>)
    requires Printable(p) && Stream(rest)
    ensures Stream(ProgramTokens(p, l) + rest)
    ensures ParseStatements(ProgramTokens(p, l) + rest, done) == ParseStatements(rest, done + p)
    decreases |p|
  {
    if p == [] {
      assert ProgramTokens(p, l) + rest == rest;
      assert done + p == done;
    } else {
      var after := ProgramTokens(p[1..], l) + rest;
      ProgramTokensSplit(p, l, rest);
      ParseProgramTokens(p[1..], l, rest, done + [p[0]]);
      ParseStmtTokens(p[0], l, after);
      ParseStatementsStep(ProgramTokens(p, l) + rest, done, p[0], after);
      AppendFront(done, p);
    }
  }

  // Lexing the printed text.

  /** `w` occurs in `src` at position `p`. */
  predicate At(src: string, p: nat, w: string) {
    p + |w| <= |src| && src[p..p + |w|] == w
  }

  lemma AtSplit(src: string, p: nat, u: string, v: string)
    requires At(src, p, u + v)
    ensures At(src, p, u) && At(src, p + |u|, v)
  {
    assert src[p..p + |u|] == (u + v)[..|u|];
    assert src[p + |u|..p + |u| + |v|] == (u + v)[|u|..];
  }

  lemma AtChar(src: string, p: nat, w: string, i: nat)
    requires At(src, p, w) && i < |w|
    ensures src[p + i] == w[i]
  {
    assert src[p..p + |w|][i] == src[p + i];
  }

  lemma TokensStep(src: string, c: Cursor)
    requires c.pos <= |src| && Scan(src, c).0.kind != EndOfFile
    ensures Tokens(src, c) == [Scan(src, c).0] + Tokens(src, Scan(src, c).1)
  {
  }

  lemma ScanWordAt(src: string, p: nat, l: int, w: string)
    requires At(src, p, w) && IsIdentifierLexeme(w)
    requires p + |w| == |src| || !IsIdentChar(src[p + |w|])
    ensures Scan(src, Cursor(p, l)) == (Token(KeywordKind(w), w, l), Cursor(p + |w|, l))
  {
    forall k | p <= k < p + |w| ensures IsIdentChar(src[k]) { AtChar(src, p, w, k - p); }
    RunEndIs(src, p, p + |w|, IsIdentChar);
    AtChar(src, p, w, 0);
    RunEndIs(src, p, p, IsSpace);
    assert src[p..p] == [];
  }

  lemma ScanNumberAt(src: string, p: nat, l: int, w: string)
    requires At(src, p, w) && IsNumberLexeme(w)
    requires p + |w| == |src| || !IsDigit(src[p + |w|])
    ensures Scan(src, Cursor(p, l)) == (Token(Number, w, l), Cursor(p + |w|, l))
  {
    forall k | p <= k < p + |w| ensures IsDigit(src[k]) { AtChar(src, p, w, k - p); }
    RunEndIs(src, p, p + |w|, IsDigit);
    AtChar(src, p, w, 0);
    RunEndIs(src, p, p, IsSpace);
    assert src[p..p] == [];
  }

  predicate IsPunct(c: char) { c == '=' || c == ';' || c == '(' || c == ')' }

  lemma ScanPunctAt(src: string, p: nat, l: int, c: char)
    requires p < |src| && src[p] == c && IsPunct(c)
    ensures Scan(src, Cursor(p, l)) == (Token(PunctKind(c), [c], l), Cursor(p + 1, l))
  {
    RunEndIs(src, p, p, IsSpace);
    assert src[p..p] == [];
  }

  lemma LexEnd(src: string, l: int)
    ensures Tokens(src, Cursor(|src|, l)) == [Token(EndOfFile, "", l)]
  {
    ScanAtEnd(src, Cursor(|src|, l));
  }

  // Lexing a spelled-out token list.

  predicate IsPunctKind(k: TokenKind) { k == Assign || k == Semicolon || k == LParen || k == RParen }

  /** Kinds whose lexeme would swallow a letter or digit that follows it. */
  predicate IsRunKind(k: TokenKind) { IsWordKind(k) || k == Number }

  /** `t` is a token on line `l` that the lexer makes of its own lexeme. */
  predicate Spellable(t: Token, l: int) {
    && t.line == l
    && match t.kind
       case Inc => t.lexeme == "inc"
       case Print => t.lexeme == "print"
       case Identifier => IsName(t.lexeme)
       case Number => IsNumberLexeme(t.lexeme)
       case Assign => t.lexeme == "="
       case Semicolon => t.lexeme == ";"
       case LParen => t.lexeme == "("
       case RParen => t.lexeme == ")"
       case EndOfFile => false
       case Unknown => false
  }

  /** Every token is spellable, and a word or a number is followed by a punctuator. */
  predicate Spelled(ts: seq<Token>, l: int) {
    ts == [] ||
    (&& Spellable(ts[0], l)
     && (|ts| > 1 && IsRunKind(ts[0].kind) ==> IsPunctKind(ts[1].kind))
     && Spelled(ts[1..], l))
  }

  /** The text of a token list: its lexemes written one after the other. */
  function Spelling(ts: seq<Token>): string {
    if ts == [] then "" else ts[0].lexeme + Spelling(ts[1..])
  }

  lemma {:induction false} SpellingAppend(a: seq<Token>, b: seq<Token>)
    ensures Spelling(a + b) == Spelling(a) + Spelling(b)
  {
    if a != [] {
      assert (a + b)[1..] == a[1..] + b;
      SpellingAppend(a[1..], b);
    } else {
      assert a + b == b;
    }
  }

  lemma {:induction false} SpelledAppend(a: seq<Token>, b: seq<Token>, l: int)
    requires Spelled(a, l) && Spelled(b, l)
    requires a != [] && b != [] && IsRunKind(a[|a| - 1].kind) ==> IsPunctKind(b[0].kind)
    ensures Spelled(a + b, l)
  {
    if a != [] {
      assert (a + b)[1..] == a[1..] + b;
      SpelledAppend(a[1..], b, l);
    } else {
      assert a + b == b;
    }
  }

  /** What the lexer needs to know about a token's lexeme at `p` to produce the token. */
  predicate LexemeAt(src: string, p: nat, l: int, t: Token) {
    var q := p + |t.lexeme|;
    && t.line == l && At(src, p, t.lexeme)
    && (IsWordKind(t.kind) ==>
         IsIdentifierLexeme(t.lexeme) && KeywordKind(t.lexeme) == t.kind && (q == |src| || !IsIdentChar(src[q])))
    && (t.kind == Number ==> IsNumberLexeme(t.lexeme) && (q == |src| || !IsDigit(src[q])))
    && (!IsRunKind(t.kind) ==> p < |src| && t.lexeme == [src[p]] && IsPunct(src[p]) && PunctKind(src[p]) == t.kind)
  }

  lemma SpellableWord(t: Token, l: int)
    requires Spellable(t, l) && IsWordKind(t.kind)
    ensures IsIdentifierLexeme(t.lexeme) && KeywordKind(t.lexeme) == t.kind
  {
  }

  lemma SpellablePunct(t: Token, l: int)
    requires Spellable(t, l) && !IsRunKind(t.kind)
    ensures |t.lexeme| == 1 && IsPunct(t.lexeme[0]) && PunctKind(t.lexeme[0]) == t.kind
  {
  }

  /** A word or number at the front of a spelled text ends at the end of the text or at
      a punctuator. */
  lemma RunLexemeEnds(src: string, p: nat, l: int, ts: seq<Token>)
    requires ts != [] && Spelled(ts, l) && At(src, p, Spelling(ts)) && IsRunKind(ts[0].kind)
    requires p + |Spelling(ts)| == |src| || IsPunct(src[p + |Spelling(ts)|])
    ensures var q := p + |ts[0].lexeme|; q == |src| || IsPunct(src[q])
  {
    var q := p + |ts[0].lexeme|;
    AtSplit(src, p, ts[0].lexeme, Spelling(ts[1..]));
    if |ts| > 1 {
      var u := ts[1..];
      assert u[0] == ts[1] && u[1..] == ts[2..];
      AtSplit(src, q, u[0].lexeme, Spelling(u[1..]));
      SpellablePunct(u[0], l);
      AtChar(src, q, u[0].lexeme, 0);
    }
  }

  /** The first lexeme of a spelled text is followed by a character that ends it. */
  lemma FirstLexeme(src: string, p: nat, l: int, ts: seq<Token>)
    requires ts != [] && Spelled(ts, l) && At(src, p, Spelling(ts))
    requires p + |Spelling(ts)| == |src| || IsPunct(src[p + |Spelling(ts)|])
    ensures LexemeAt(src, p, l, ts[0])
  {
    var t := ts[0];
    AtSplit(src, p, t.lexeme, Spelling(ts[1..]));
    if IsRunKind(t.kind) {
      RunLexemeEnds(src, p, l, ts);
      if IsWordKind(t.kind) {
        SpellableWord(t, l);
      }
    } else {
      SpellablePunct(t, l);
      AtChar(src, p, t.lexeme, 0);
    }
  }

  /** The lexer turns a lexeme into its token. */
  lemma ScanToken(src: string, p: nat, q: nat, l: int, t: Token)
    requires LexemeAt(src, p, l, t) && q == p + |t.lexeme|
    ensures p <= q <= |src|
    ensures Scan(src, Cursor(p, l)) == (t, Cursor(q, l)) && t.kind != EndOfFile
  {
    if IsWordKind(t.kind) {
      ScanWordAt(src, p, l, t.lexeme);
    } else if t.kind == Number {
      ScanNumberAt(src, p, l, t.lexeme);
    } else {
      ScanPunctAt(src, p, l, src[p]);
    }
  }

  /** The text from `p` to `e` is the tokens' lexemes, each one ending where the lexer
      ends it. */
  predicate Lexed(src: string, p: nat, l: int, ts: seq<Token>, e: nat)
    decreases |ts|
  {
    if ts == [] then p == e
    else LexemeAt(src, p, l, ts[0]) && Lexed(src, p + |ts[0].lexeme|, l, ts[1..], e)
  }

  lemma LexedFront(src: string, p: nat, q: nat, l: int, ts: seq<Token>, e: nat)
    requires ts != [] && q == p + |ts[0].lexeme|
    requires LexemeAt(src, p, l, ts[0]) && Lexed(src, q, l, ts[1..], e)
    ensures Lexed(src, p, l, ts, e)
  {
  }

  lemma {:induction false} SpelledIsLexed(src: string, p: nat, l: int, ts: seq<Token>)
    requires Spelled(ts, l) && At(src, p, Spelling(ts))
    requires p + |Spelling(ts)| == |src| || IsPunct(src[p + |Spelling(ts)|])
    ensures Lexed(src, p, l, ts, p + |Spelling(ts)|)
    decreases |ts|
  {
    if ts != [] {
      var q := p + |ts[0].lexeme|;
      var e := p + |Spelling(ts)|;
      FirstLexeme(src, p, l, ts);
      AtSplit(src, p, ts[0].lexeme, Spelling(ts[1..]));
      SpelledIsLexed(src, q, l, ts[1..]);
      assert q + |Spelling(ts[1..])| == e;
      LexedFront(src, p, q, l, ts, e);
    }
  }

  /** The lexer scans the first token of a lexed list, and the rest is lexed after it. */
  lemma LexedCons(src: string, p: nat, q: nat, l: int, ts: seq<Token>, e: nat)
    requires ts != [] && Lexed(src, p, l, ts, e) && q == p + |ts[0].lexeme|
    ensures p <= q <= |src| && ts[0].kind != EndOfFile
    ensures Scan(src, Cursor(p, l)) == (ts[0], Cursor(q, l))
    ensures Lexed(src, q, l, ts[1..], e)
  {
    ScanToken(src, p, q, l, ts[0]);
  }

  lemma ScanTokens(src: string, p: nat, q: nat, l: int, t: Token)
    requires p <= |src| && Scan(src, Cursor(p, l)) == (t, Cursor(q, l)) && t.kind != EndOfFile
    ensures Tokens(src, Cursor(p, l)) == [t] + Tokens(src, Cursor(q, l))
  {
    TokensStep(src, Cursor(p, l));
  }

  lemma TokensChain(src: string, p: nat, q: nat, e: nat, l: int, t: Token, rest: seq<Token>, ts: seq<Token>)
    requires p <= |src| && q <= |src| && e <= |src| && ts == [t] + rest
    requires Tokens(src, Cursor(p, l)) == [t] + Tokens(src, Cursor(q, l))
    requires Tokens(src, Cursor(q, l)) == rest + Tokens(src, Cursor(e, l))
    ensures Tokens(src, Cursor(p, l)) == ts + Tokens(src, Cursor(e, l))
  {
    ConsChain(Tokens(src, Cursor(p, l)), Tokens(src, Cursor(q, l)), Tokens(src, Cursor(e, l)), t, rest, ts);
  }

  lemma ConsChain(x: seq<Token>, y: seq<Token>, z: seq<Token>, t: Token, rest: seq<Token>, ts: seq<Token>)
    requires x == [t] + y && y == rest + z && ts == [t] + rest
    ensures x == ts + z
  {
  }

  lemma {:induction false} LexedTokens(src: string, p: nat, l: int, ts: seq<Token>, e: nat)
    requires Lexed(src, p, l, ts, e) && e <= |src|
    ensures Tokens(src, Cursor(p, l)) == ts + Tokens(src, Cursor(e, l))
    decreases |ts|
  {
    if ts == [] {
      assert ts + Tokens(src, Cursor(p, l)) == Tokens(src, Cursor(p, l));
    } else {
      var t, rest := ts[0], ts[1..];
      var q := p + |t.lexeme|;
      LexedCons(src, p, q, l, ts, e);
      LexedTokens(src, q, l, rest, e);
      ScanTokens(src, p, q, l, t);
      TokensChain(src, p, q, e, l, t, rest, ts);
    }
  }

  /** The lexer reads a spelled token list back token for token, provided the text
      after it cannot extend its last lexeme. */
  lemma LexSpelling(src: string, p: nat, l: int, ts: seq<Token>)
    requires Spelled(ts, l) && At(src, p, Spelling(ts))
    requires p + |Spelling(ts)| == |src| || IsPunct(src[p + |Spelling(ts)|])
    ensures Tokens(src, Cursor(p, l)) == ts + Tokens(src, Cursor(p + |Spelling(ts)|, l))
  {
    SpelledIsLexed(src, p, l, ts);
    LexedTokens(src, p, l, ts, p + |Spelling(ts)|);
  }

  // The printed text is the spelling of the tree's tokens.

  lemma SpellingOne(t: Token)
    ensures Spelling([t]) == t.lexeme
  {
    assert [t][1..] == [];
  }

  lemma SpelledOne(t: Token, l: int)
    requires Spellable(t, l)
    ensures Spelled([t], l)
  {
    assert [t][1..] == [];
  }

  lemma SpellingPair(t: Token, u: Token)
    ensures Spelling([t, u]) == t.lexeme + u.lexeme
  {
    SpellingOne(t);
    SpellingOne(u);
    SpellingAppend([t], [u]);
    assert [t] + [u] == [t, u];
  }

  /** Two tokens side by side: their text, and why the first one is not swallowed. */
  lemma SpelledPair(t: Token, u: Token, l: int)
    requires Spellable(t, l) && Spellable(u, l) && IsRunKind(t.kind) && IsPunctKind(u.kind)
    ensures Spelled([t, u], l) && Spelling([t, u]) == t.lexeme + u.lexeme
  {
    SpelledOne(t, l);
    SpelledOne(u, l);
    SpelledAppend([t], [u], l);
    SpellingPair(t, u);
    assert [t] + [u] == [t, u];
  }

  /** Appending a list that starts with a punctuator keeps the spelling well formed. */
  lemma SpelledThenPunct(a: seq<Token>, b: seq<Token>, l: int)
    requires Spelled(a, l) && Spelled(b, l) && b != [] && IsPunctKind(b[0].kind)
    ensures Spelled(a + b, l) && Spelling(a + b) == Spelling(a) + Spelling(b)
  {
    SpelledAppend(a, b, l);
    SpellingAppend(a, b);
  }

  /** Appending after a list that ends in a punctuator keeps the spelling well formed. */
  lemma SpelledAfterPunct(a: seq<Token>, b: seq<Token>, l: int)
    requires Spelled(a, l) && Spelled(b, l) && a != [] && IsPunctKind(a[|a| - 1].kind)
    ensures Spelled(a + b, l) && Spelling(a + b) == Spelling(a) + Spelling(b)
  {
    SpelledAppend(a, b, l);
    SpellingAppend(a, b);
  }

  /** The tokens of an expression spell its printed text. */
  lemma {:induction false} ExprSpelling(e: Expr, l: int)
    requires PrintableExpr(e)
    ensures Spelled(ExprTokens(e, l), l) && Spelling(ExprTokens(e, l)) == ShowExpr(e)
  {
    match e
    case NumberExpr(v) =>
      SpelledOne(Token(Number, DecimalString(v), l), l);
      SpellingOne(Token(Number, DecimalString(v), l));
    case IdentifierExpr(n) =>
      SpelledOne(Token(Identifier, n, l), l);
      SpellingOne(Token(Identifier, n, l));
    case IncCallExpr(a) =>
      var head := [Token(Inc, "inc", l), Token(LParen, "(", l)];
      var close := [Token(RParen, ")", l)];
      var inner := ExprTokens(a, l);
      ExprSpelling(a, l);
      SpelledPair(head[0], head[1], l);
      SpelledAfterPunct(head, inner, l);
      SpelledOne(close[0], l);
      SpellingOne(close[0]);
      SpelledThenPunct(head + inner, close, l);
      assert "inc" + "(" == "inc(";
  }

  /** The tokens of a statement spell its printed text. */
  lemma StmtSpelling(s: Stmt, l: int)
    requires PrintableStmt(s)
    ensures Spelled(StmtTokens(s, l), l) && Spelling(StmtTokens(s, l)) == ShowStmt(s)
    ensures StmtTokens(s, l) != [] && StmtTokens(s, l)[|StmtTokens(s, l)| - 1].kind == Semicolon
  {
    match s
    case VarDeclStmt(n, v) =>
      var w := DecimalString(v);
      var left := [Token(Identifier, n, l), Token(Assign, "=", l)];
      var right := [Token(Number, w, l), Token(Semicolon, ";", l)];
      SpelledPair(left[0], left[1], l);
      SpelledPair(right[0], right[1], l);
      SpelledAfterPunct(left, right, l);
      assert left + right == StmtTokens(s, l);
      assert n + "=" + (w + ";") == n + "=" + w + ";";
    case PrintStmt(e) =>
      var head := [Token(Print, "print", l), Token(LParen, "(", l)];
      var inner := ExprTokens(e, l);
      var close := [Token(RParen, ")", l), Token(Semicolon, ";", l)];
      ExprSpelling(e, l);
      SpelledPair(head[0], head[1], l);
      SpelledAfterPunct(head, inner, l);
      SpelledOne(close[0], l);
      SpelledOne(close[1], l);
      SpelledAfterPunct([close[0]], [close[1]], l);
      SpellingOne(close[0]);
      SpellingOne(close[1]);
      SpellingAppend([close[0]], [close[1]]);
      assert [close[0]] + [close[1]] == close;
      SpelledThenPunct(head + inner, close, l);
      assert "print" + "(" == "print(";
      assert ")" + ";" == ");";
  }

  /** The tokens of a program spell its printed text. */
  lemma {:induction false} ProgramSpelling(p: Program, l: int)
    requires Printable(p)
    ensures Spelled(ProgramTokens(p, l), l) && Spelling(ProgramTokens(p, l)) == Show(p)
    decreases |p|
  {
    if p != [] {
      PrintableTail(p);
      StmtSpelling(p[0], l);
      ProgramSpelling(p[1..], l);
      SpelledAfterPunct(StmtTokens(p[0], l), ProgramTokens(p[1..], l), l);
    }
  }

  /** Lexing the printed text of a tree yields the tree's tokens and end-of-file. */
  lemma LexShow(p: Program)
    requires Printable(p)
    ensures Tokens(Show(p), Cursor(0, 1)) == ProgramTokens(p, 1) + [Token(EndOfFile, "", 1)]
  {
    var src, ts := Show(p), ProgramTokens(p, 1);
    ProgramSpelling(p, 1);
    assert src[0..|src|] == src;
    LexSpelling(src, 0, 1, ts);
    LexEnd(src, 1);
  }

  lemma ParseEnd(done: seq<Stmt>)
    ensures Stream([Token(EndOfFile, "", 1)])
    ensures ParseStatements([Token(EndOfFile, "", 1)], done) == Ok(done)
  {
  }

  /** The parser reads a tree's tokens, closed by end-of-file, back as the tree. */
  lemma ParseProgramTokensEnd(p: Program, ts: seq<Token>)
    requires Printable(p) && ts == ProgramTokens(p, 1) + [Token(EndOfFile, "", 1)]
    ensures Stream(ts) && ParseProgram(ts) == Ok(p)
  {
    ParseProgramTokens(p, 1, [Token(EndOfFile, "", 1)], []);
    assert [] + p == p;
    ParseEnd(p);
  }

  /** Printing and then lexing and parsing gives back the tree. */
  lemma ParseShow(p: Program)
    requires Printable(p)
    ensures ParseProgram(Tokens(Show(p), Cursor(0, 1))) == Ok(p)
  {
    LexShow(p);
    ParseProgramTokensEnd(p, Tokens(Show(p), Cursor(0, 1)));
  }
}
