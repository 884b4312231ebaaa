/** The pipeline that runs one IncLang source text: lex and parse it, check it, run it. */
module Driver {
  import opened Wrappers
  import opened Syntax
  import opened Lexing
  import opened Grammar
  import opened Parsing
  import opened Checking
  import opened Execution
  import opened Unparsing

  /** How a run ends, and the values printed before it ended. */
  datatype Report = Report(outcome: Outcome<Error>, output: seq<int>)

  /** The whole text is parsed before anything is checked, and the whole tree is checked
      before anything runs, so a syntax or semantic error prints nothing; a runtime error
      keeps what was printed before it. */
  function Run(src: string): (r: Report)
    ensures r.outcome.Fail? && !r.outcome.error.Runtime? ==> r.output == []
  {
    match ParseProgram(Tokens(src, Cursor(0, 1)))
    case Err(e) => Report(Fail(e), [])
    case Ok(p) =>
      var scope := Analysis(Scope(Pass, {}), p);
      if scope.outcome.Fail? then Report(scope.outcome, [])
      else
        var t := Execute(Trace(Pass, map[], []), p);
        Report(t.outcome, t.output)
  }

  /** A lexer over the text, a parser over the lexer, then a fresh analyzer and a fresh
      interpreter on the tree. */
  method RunPipeline(src: string) returns (r: Report)
    ensures r == Run(src)
  {
    var lexer := new Lexer(src);
    var parser := new Parser(lexer);
    var ast := parser.Parse();
    if ast.Err? {
      return Report(Fail(ast.error), []);
    }
    var analyzer := new SemanticAnalyzer();
    var checked := analyzer.Analyze(ast.value);
    if checked.Fail? {
      return Report(checked, []);
    }
    var interpreter := new Interpreter();
    var ran := interpreter.Interpret(ast.value);
    r := Report(ran, interpreter.output);
  }

  /** From a store that holds every name a well-scoped program reads before declaring
      it, execution never fails, and the store ends up holding exactly those names and
      the declared ones. */
  lemma {:induction false} WellScopedRunsClean(t: Trace, p: Program)
    requires t.outcome.Pass? && WellScopedFrom(t.memory.Keys, p)
    ensures Execute(t, p).outcome.Pass?
    ensures Execute(t, p).memory.Keys == t.memory.Keys + Declared(p)
    decreases |p|
  {
    if p == [] {
      assert Declared(p) == {};
    } else {
      var s, rest := p[0], p[1..];
      assert p == [s] + rest;
      WellScopedCons(t.memory.Keys, s, rest);
      DeclaredCons(s, rest);
      if s.PrintStmt? {
        EvaluateDefined(t.memory, s.expression);
      }
      var u := Step(t, s);
      assert u.memory.Keys == t.memory.Keys + DeclaredBy(s);
      WellScopedRunsClean(u, rest);
    }
  }

  /** After a passing check the interpreter never meets an unassigned variable; its store
      holds exactly the names the analyzer declared, and it prints the reference values. */
  lemma CheckedProgramRuns(p: Program)
    requires Analysis(Scope(Pass, {}), p).outcome.Pass?
    ensures var t := Execute(Trace(Pass, map[], []), p);
            && t.outcome.Pass?
            && t.memory.Keys == Analysis(Scope(Pass, {}), p).declared
            && t.output == Printed(p)
  {
    AnalysisPassesIffWellScoped({}, p);
    var empty: map<string, int> := map[];
    assert empty.Keys == {};
    WellScopedRunsClean(Trace(Pass, empty, []), p);
    ExecuteAgreesWithReference(p);
  }

  /** A run never ends in a runtime error: the check has already rejected every program
      that would. */
  lemma NoRuntimeError(src: string)
    ensures !(Run(src).outcome.Fail? && Run(src).outcome.error.Runtime?)
  {
    var r := ParseProgram(Tokens(src, Cursor(0, 1)));
    if r.Ok? {
      RunOfParsed(src, r.value);
    }
  }

  /** Once the text parses, the run succeeds exactly on well-scoped programs and then
      prints the reference values; otherwise it fails naming an undeclared variable and
      prints nothing. */
  lemma RunOfParsed(src: string, p: Program)
    requires ParseProgram(Tokens(src, Cursor(0, 1))) == Ok(p)
    ensures Run(src).outcome.Pass? <==> WellScoped(p)
    ensures Run(src).outcome.Pass? ==> Run(src).output == Printed(p)
    ensures Run(src).outcome.Fail? ==>
              Run(src).outcome == Analysis(Scope(Pass, {}), p).outcome && Run(src).output == [] &&
              Run(src).outcome.error.Semantic? &&
              exists k :: 0 <= k < |p| && p[k].PrintStmt? &&
                Run(src).outcome.error.undeclared in Vars(p[k].expression) - Declared(p[..k])
  {
    AnalysisPassesIffWellScoped({}, p);
    if Analysis(Scope(Pass, {}), p).outcome.Pass? {
      CheckedProgramRuns(p);
    } else {
      AnalysisFailureNamesVariable({}, p);
    }
  }

  /** Running the printed text of a well-scoped tree prints the tree's reference values. */
  lemma RunShow(p: Program)
    requires Printable(p) && WellScoped(p)
    ensures Run(Show(p)) == Report(Pass, Printed(p))
  {
    ParseShow(p);
    RunOfParsed(Show(p), p);
  }

  // The three programs of `main`, and a declaration whose value is a call.

  /** The tree of `x=10;print(inc(x));print(inc(15));`. */
  function ValidProgram(): Program {
    [VarDeclStmt("x", 10), PrintStmt(IncCallExpr(IdentifierExpr("x"))), PrintStmt(IncCallExpr(NumberExpr(15)))]
  }

  lemma XIsName()
    ensures IsName("x")
  {
    assert "x" !in Keywords;
  }

  lemma DeclarationText()
    ensures PrintableStmt(VarDeclStmt("x", 10)) && ShowStmt(VarDeclStmt("x", 10)) == "x=10;"
  {
    XIsName();
    assert DecimalString(10) == "10";
  }

  lemma PrintVariableText()
    ensures PrintableStmt(PrintStmt(IncCallExpr(IdentifierExpr("x"))))
    ensures ShowStmt(PrintStmt(IncCallExpr(IdentifierExpr("x")))) == "print(inc(x));"
  {
    XIsName();
  }

  lemma PrintLiteralText()
    ensures PrintableStmt(PrintStmt(IncCallExpr(NumberExpr(15))))
    ensures ShowStmt(PrintStmt(IncCallExpr(NumberExpr(15)))) == "print(inc(15));"
  {
    assert DecimalString(15) == "15";
  }

  lemma Concat3(a: string, b: string, c: string, w: string)
    requires a == "x=10;" && b == "print(inc(x));" && c == "print(inc(15));"
    requires w == a + (b + (c + ""))
    ensures w == "x=10;print(inc(x));print(inc(15));"
  {
  }

  lemma ValidProgramText()
    ensures Printable(ValidProgram()) && Show(ValidProgram()) == "x=10;print(inc(x));print(inc(15));"
  {
    var p := ValidProgram();
    DeclarationText();
    PrintVariableText();
    PrintLiteralText();
    ShowCons(p[2], []);
    ShowCons(p[1], [p[2]]);
    ShowCons(p[0], [p[1], p[2]]);
    assert [p[1]] + [p[2]] == p[1..] && [p[0]] + p[1..] == p;
    Concat3(ShowStmt(p[0]), ShowStmt(p[1]), ShowStmt(p[2]), Show(p));
  }

  lemma ValidProgramMeaning()
    ensures WellScoped(ValidProgram()) && Printed(ValidProgram()) == [11, 16]
  {
    var p := ValidProgram();
    assert p[..1] == [VarDeclStmt("x", 10)] && p[..2][..1] == p[..1] && p[..1][..0] == [];
    assert "x" in Declared(p[..1]) && "x" in Declared(p[..2]);
    assert LastValue(p[..1], "x") == Some(10);
    assert Printed(p[..1]) == [];
    assert Printed(p[..2]) == [11];
  }

  /** `x=10;print(inc(x));print(inc(15));` prints 11 and then 16. */
  lemma ValidProgramExample()
    ensures Run("x=10;print(inc(x));print(inc(15));") == Report(Pass, [11, 16])
  {
    ValidProgramText();
    ValidProgramMeaning();
    RunShow(ValidProgram());
  }

  /** The tree of `a=1;print(inc(y));`. */
  function UndeclaredProgram(): Program {
    [VarDeclStmt("a", 1), PrintStmt(IncCallExpr(IdentifierExpr("y")))]
  }

  lemma UndeclaredProgramText()
    ensures Printable(UndeclaredProgram()) && Show(UndeclaredProgram()) == "a=1;print(inc(y));"
  {
    var p := UndeclaredProgram();
    assert "a" !in Keywords && "y" !in Keywords;
    assert IsName("a") && IsName("y");
    assert DecimalString(1) == "1";
    assert ShowStmt(p[0]) == "a=1;";
    assert ShowStmt(p[1]) == "print(inc(y));";
    ShowCons(p[1], []);
    ShowCons(p[0], [p[1]]);
    assert [p[0]] + [p[1]] == p;
  }

  lemma UndeclaredProgramChecked()
    ensures Analysis(Scope(Pass, {}), UndeclaredProgram()).outcome == Fail(Semantic("y"))
  {
    var p := UndeclaredProgram();
    assert p[1..] == [p[1]] && [p[1]][1..] == [];
  }

  /** `a=1;print(inc(y));` is rejected by the check, naming `y`, before anything runs. */
  lemma UndeclaredVariableExample()
    ensures Run("a=1;print(inc(y));") == Report(Fail(Semantic("y")), [])
  {
    UndeclaredProgramText();
    ParseShow(UndeclaredProgram());
    UndeclaredProgramChecked();
    RunOfParsed("a=1;print(inc(y));", UndeclaredProgram());
  }

  /** What the lexer makes of `print(inc());`, end-of-file aside. */
  function MissingArgumentStream(): seq<Token> {
    [Token(Print, "print", 1), Token(LParen, "(", 1)] + [Token(Inc, "inc", 1), Token(LParen, "(", 1)] +
    [Token(RParen, ")", 1)] + [Token(RParen, ")", 1)] + [Token(Semicolon, ";", 1)]
  }

  lemma MissingArgumentTokens(ts: seq<Token>)
    requires ts == MissingArgumentStream()
    ensures Spelled(ts, 1) && Spelling(ts) == "print(inc());"
  {
    var open, inc := Token(LParen, "(", 1), Token(Inc, "inc", 1);
    var close, semi := Token(RParen, ")", 1), Token(Semicolon, ";", 1);
    SpelledPair(Token(Print, "print", 1), open, 1);
    SpelledPair(inc, open, 1);
    SpelledOne(close, 1);
    SpelledOne(semi, 1);
    SpellingOne(close);
    SpellingOne(semi);
    var a := [Token(Print, "print", 1), open] + [inc, open];
    SpelledAfterPunct([Token(Print, "print", 1), open], [inc, open], 1);
    assert Spelling(a) == "print(inc(";
    SpelledAfterPunct(a, [close], 1);
    SpelledAfterPunct(a + [close], [close], 1);
    SpelledAfterPunct(a + [close] + [close], [semi], 1);
  }

  lemma MissingArgumentLexed()
    ensures Tokens("print(inc());", Cursor(0, 1)) == MissingArgumentStream() + [Token(EndOfFile, "", 1)]
  {
    var src, ts := "print(inc());", MissingArgumentStream();
    MissingArgumentTokens(ts);
    assert src[0..|src|] == src;
    LexSpelling(src, 0, 1, ts);
    LexEnd(src, 1);
  }

  lemma MissingArgumentParsed(u: seq<Token>)
    requires u == MissingArgumentStream() + [Token(EndOfFile, "", 1)]
    ensures Stream(u) && ParseProgram(u) == Err(Syntax(ExpectedExpression))
  {
    assert u[1..][1..] == u[2..];
    IncWithoutArgument(u[2..]);
  }

  /** `print(inc());` is a syntax error: `inc` has no argument. */
  lemma MissingArgumentExample()
    ensures Run("print(inc());") == Report(Fail(Syntax(ExpectedExpression)), [])
  {
    MissingArgumentLexed();
    MissingArgumentParsed(Tokens("print(inc());", Cursor(0, 1)));
  }

  /** What the lexer makes of `x=inc(1);`, end-of-file aside. */
  function CallInitialiserStream(): seq<Token> {
    [Token(Identifier, "x", 1), Token(Assign, "=", 1)] + [Token(Inc, "inc", 1), Token(LParen, "(", 1)] +
    [Token(Number, "1", 1), Token(RParen, ")", 1)] + [Token(Semicolon, ";", 1)]
  }

  lemma CallInitialiserSpelled(ts: seq<Token>)
    requires ts == CallInitialiserStream()
    ensures Spelled(ts, 1)
  {
    var x, assign := Token(Identifier, "x", 1), Token(Assign, "=", 1);
    var inc, open := Token(Inc, "inc", 1), Token(LParen, "(", 1);
    var one, close := Token(Number, "1", 1), Token(RParen, ")", 1);
    var semi := Token(Semicolon, ";", 1);
    XIsName();
    SpelledPair(x, assign, 1);
    SpelledPair(inc, open, 1);
    SpelledPair(one, close, 1);
    SpelledOne(semi, 1);
    SpelledAppend([x, assign], [inc, open], 1);
    SpelledAppend([x, assign] + [inc, open], [one, close], 1);
    SpelledAppend([x, assign] + [inc, open] + [one, close], [semi], 1);
  }

  lemma CallInitialiserSpelling(ts: seq<Token>)
    requires ts == CallInitialiserStream()
    ensures Spelling(ts) == "x=inc(1);"
  {
    var x, assign := Token(Identifier, "x", 1), Token(Assign, "=", 1);
    var inc, open := Token(Inc, "inc", 1), Token(LParen, "(", 1);
    var one, close := Token(Number, "1", 1), Token(RParen, ")", 1);
    var semi := Token(Semicolon, ";", 1);
    SpellingPair(x, assign);
    SpellingPair(inc, open);
    SpellingPair(one, close);
    SpellingOne(semi);
    var a := [x, assign] + [inc, open];
    SpellingAppend([x, assign], [inc, open]);
    assert Spelling(a) == "x=inc(";
    SpellingAppend(a, [one, close]);
    SpellingAppend(a + [one, close], [semi]);
  }

  lemma CallInitialiserLexed()
    ensures Tokens("x=inc(1);", Cursor(0, 1)) == CallInitialiserStream() + [Token(EndOfFile, "", 1)]
  {
    var src, ts := "x=inc(1);", CallInitialiserStream();
    CallInitialiserSpelled(ts);
    CallInitialiserSpelling(ts);
    assert src[0..|src|] == src;
    LexSpelling(src, 0, 1, ts);
    LexEnd(src, 1);
  }

  lemma CallInitialiserParsed(u: seq<Token>)
    requires u == CallInitialiserStream() + [Token(EndOfFile, "", 1)]
    ensures Stream(u) && ParseProgram(u) == Err(Syntax(Unexpected("Expected value", "inc", 1)))
  {
    DeclarationNeedsNumber(u);
  }

  /** `x=inc(1);` is a syntax error: a declaration's value must be a number token, so the
      parser stops at `inc` where it expected the value. */
  lemma CallInitialiserExample()
    ensures Run("x=inc(1);") == Report(Fail(Syntax(Unexpected("Expected value", "inc", 1))), [])
  {
    CallInitialiserLexed();
    CallInitialiserParsed(Tokens("x=inc(1);", Cursor(0, 1)));
  }
}
