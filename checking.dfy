/** The semantic analyzer: one forward pass that grows the set of declared names and
    rejects a variable used before any declaration of it. */
module Checking {
  import opened Wrappers
  import opened Syntax

  /** `analyzeExpr` against a given symbol table. */
  function AnalyzeExpr(declared: set<string>, e: Expr): (r: Outcome<Error>)
    ensures r.Pass? <==> Vars(e) <= declared
    ensures r.Fail? ==> r.error.Semantic? && r.error.undeclared in Vars(e) && r.error.undeclared !in declared
  {
    match e
    case NumberExpr(_) => Pass
    case IdentifierExpr(n) => if n in declared then Pass else Fail(Semantic(n))
    case IncCallExpr(a) => AnalyzeExpr(declared, a)
  }

  /** The analyzer's state: how the pass stands and the names declared so far. */
  datatype Scope = Scope(outcome: Outcome<Error>, declared: set<string>)

  /** `analyzeStmt`: a declaration adds its name, re-declaration included; a print
      checks its expression. */
  function StmtScope(declared: set<string>, s: Stmt): (r: Scope)
    ensures r.declared == declared + DeclaredBy(s)
    ensures r.outcome.Pass? <==> (s.PrintStmt? ==> Vars(s.expression) <= declared)
    ensures r.outcome.Fail? ==> s.PrintStmt? && r.outcome.error.Semantic?
  {
    match s
    case VarDeclStmt(n, _) => Scope(Pass, declared + {n})
    case PrintStmt(e) => Scope(AnalyzeExpr(declared, e), declared)
  }

  /** `analyze`: statements in order, stopping at the first failure. */
  function Analysis(start: Scope, program: Program): (r: Scope)
    ensures start.outcome.Fail? ==> r == start
    ensures start.declared <= r.declared
    ensures start.outcome.Pass? && r.outcome.Fail? ==> r.outcome.error.Semantic?
    decreases |program|
  {
    if program == [] || start.outcome.Fail? then start
    else Analysis(StmtScope(start.declared, program[0]), program[1..])
  }

  /** The names some statement of `ss` declares. */
  function Declared(ss: seq<Stmt>): set<string> {
    set s | s in ss && s.VarDeclStmt? :: s.varName
  }

  /** Every print uses only names declared beforehand: in `declared` or by a textually
      earlier statement. */
  ghost predicate WellScopedFrom(declared: set<string>, p: Program) {
    forall k :: 0 <= k < |p| && p[k].PrintStmt? ==> Vars(p[k].expression) <= declared + Declared(p[..k])
  }

  ghost predicate WellScoped(p: Program) {
    WellScopedFrom({}, p)
  }

  function DeclaredBy(s: Stmt): set<string> {
    if s.VarDeclStmt? then {s.varName} else {}
  }

  lemma DeclaredCons(s: Stmt, t: seq<Stmt>)
    ensures Declared([s] + t) == DeclaredBy(s) + Declared(t)
  {
    assert forall x :: x in [s] + t <==> x == s || x in t;
  }

  /** Being well scoped, peeled off at the first statement. */
  lemma WellScopedCons(declared: set<string>, s: Stmt, rest: Program)
    ensures WellScopedFrom(declared, [s] + rest) <==>
              (s.PrintStmt? ==> Vars(s.expression) <= declared) &&
              WellScopedFrom(declared + DeclaredBy(s), rest)
  {
    var p := [s] + rest;
    assert p[..0] == [];
    forall j | 0 <= j < |rest|
      ensures p[j + 1] == rest[j]
      ensures declared + Declared(p[..j + 1]) == declared + DeclaredBy(s) + Declared(rest[..j])
    {
      assert p[..j + 1] == [s] + rest[..j];
      DeclaredCons(s, rest[..j]);
    }
    if WellScopedFrom(declared + DeclaredBy(s), rest) && (s.PrintStmt? ==> Vars(s.expression) <= declared) {
      forall k | 0 <= k < |p| && p[k].PrintStmt?
        ensures Vars(p[k].expression) <= declared + Declared(p[..k])
      {
        if k > 0 { assert p[k] == rest[k - 1]; }
      }
    }
    if WellScopedFrom(declared, p) {
      assert p[0] == s;
      forall j | 0 <= j < |rest| && rest[j].PrintStmt?
        ensures Vars(rest[j].expression) <= declared + DeclaredBy(s) + Declared(rest[..j])
      {
        assert p[j + 1] == rest[j];
      }
    }
  }

  /** The check passes exactly on well-scoped programs, and then it has declared
      precisely the names the program declares. */
  lemma {:induction false} AnalysisPassesIffWellScoped(declared: set<string>, p: Program)
    ensures Analysis(Scope(Pass, declared), p).outcome.Pass? <==> WellScopedFrom(declared, p)
    ensures Analysis(Scope(Pass, declared), p).outcome.Pass? ==>
              Analysis(Scope(Pass, declared), p).declared == declared + Declared(p)
    decreases |p|
  {
    if p == [] {
      assert Declared(p) == {};
    } else {
      var s, rest := p[0], p[1..];
      assert p == [s] + rest;
      WellScopedCons(declared, s, rest);
      DeclaredCons(s, rest);
      var next := StmtScope(declared, s);
      if next.outcome.Pass? {
        assert next.declared == declared + DeclaredBy(s);
        AnalysisPassesIffWellScoped(declared + DeclaredBy(s), rest);
      }
    }
  }

  /** A failing check names a variable of some print that no earlier statement
      declares, and every print before that one was well scoped. */
  lemma {:induction false} AnalysisFailureNamesVariable(declared: set<string>, p: Program)
    requires Analysis(Scope(Pass, declared), p).outcome.Fail?
    ensures exists k :: 0 <= k < |p| && p[k].PrintStmt? &&
              var n := Analysis(Scope(Pass, declared), p).outcome.error;
              && n.Semantic?
              && n.undeclared in Vars(p[k].expression)
              && n.undeclared !in declared + Declared(p[..k])
              && WellScopedFrom(declared, p[..k])
    decreases |p|
  {
    var s, rest := p[0], p[1..];
    assert p == [s] + rest;
    assert p[..0] == [];
    var next := StmtScope(declared, s);
    if next.outcome.Fail? {
      assert 0 < |p| && p[0].PrintStmt?;
    } else {
      var err := Analysis(Scope(Pass, declared), p).outcome.error;
      AnalysisFailureNamesVariable(next.declared, rest);
      var j :| 0 <= j < |rest| && rest[j].PrintStmt? &&
               err.Semantic? &&
               err.undeclared in Vars(rest[j].expression) &&
               err.undeclared !in next.declared + Declared(rest[..j]) &&
               WellScopedFrom(next.declared, rest[..j]);
      assert p[j + 1] == rest[j];
      assert p[..j + 1] == [s] + rest[..j];
      DeclaredCons(s, rest[..j]);
      WellScopedCons(declared, s, rest[..j]);
    }
  }

  /** The analyzer object; `symbol_table` only ever maps names to true, so it is a set. */
  class SemanticAnalyzer {
    var symbolTable: set<string>

    constructor ()
      ensures symbolTable == {}
    {
      symbolTable := {};
    }

    method AnalyzeStmt(s: Stmt) returns (r: Outcome<Error>)
      modifies this
      ensures Scope(r, symbolTable) == StmtScope(old(symbolTable), s)
    {
      match s
      case VarDeclStmt(n, _) =>
        symbolTable := symbolTable + {n};
        r := Pass;
      case PrintStmt(e) =>
        r := AnalyzeExpr(symbolTable, e);
    }

    method Analyze(program: Program) returns (r: Outcome<Error>)
      modifies this
      ensures Scope(r, symbolTable) == Analysis(Scope(Pass, old(symbolTable)), program)
    {
      for i := 0 to |program|
        invariant Analysis(Scope(Pass, old(symbolTable)), program) == Analysis(Scope(Pass, symbolTable), program[i..])
      {
        assert program[i..][1..] == program[i + 1..];
        r := AnalyzeStmt(program[i]);
        if r.Fail? {
          return;
        }
      }
      r := Pass;
    }
  }
}
