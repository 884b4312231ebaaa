/** The tree-walking interpreter: a name-to-value store and the printed values. */
module Execution {
  import opened Wrappers
  import opened Syntax

  /** `evaluateExpr` against a given store: the innermost operand's value plus one
      for every enclosing `inc`, or a runtime error for an unassigned variable. */
  function EvaluateExpr(memory: map<string, int>, e: Expr): (r: Result<int, Error>)
    ensures Leaf(e).NumberExpr? ==> r == Ok(Leaf(e).value + Depth(e))
    ensures Leaf(e).IdentifierExpr? ==>
              r == if Leaf(e).name in memory then Ok(memory[Leaf(e).name] + Depth(e))
                   else Err(Runtime(Leaf(e).name))
  {
    match e
    case NumberExpr(v) => Ok(v)
    case IdentifierExpr(n) => if n !in memory then Err(Runtime(n)) else Ok(memory[n])
    case IncCallExpr(a) =>
      var v :- EvaluateExpr(memory, a);
      Ok(v + 1)
  }

  /** Evaluation succeeds exactly when every variable of the expression is in the store. */
  lemma EvaluateDefined(memory: map<string, int>, e: Expr)
    ensures EvaluateExpr(memory, e).Ok? <==> Vars(e) <= memory.Keys
  {
    var leaf := Leaf(e);
    if leaf.IdentifierExpr? {
      assert Vars(leaf) == {leaf.name};
    }
  }

  /** The interpreter's state: how execution stands, the store and everything printed. */
  datatype Trace = Trace(outcome: Outcome<Error>, memory: map<string, int>, output: seq<int>)

  /** `executeStmt`: a declaration inserts or overwrites; a print appends one value. */
  function Step(t: Trace, s: Stmt): (r: Trace)
    ensures t.output <= r.output && |r.output| <= |t.output| + 1
    ensures t.memory.Keys <= r.memory.Keys
    ensures r.outcome.Fail? ==> s.PrintStmt? && r.outcome.error.Runtime? && r.output == t.output
    ensures s.VarDeclStmt? ==> r.outcome.Pass? && s.varName in r.memory && r.memory[s.varName] == s.initialValue
  {
    match s
    case VarDeclStmt(n, v) => Trace(Pass, t.memory[n := v], t.output)
    case PrintStmt(e) =>
      match EvaluateExpr(t.memory, e)
      case Ok(v) => Trace(Pass, t.memory, t.output + [v])
      case Err(err) => Trace(Fail(err), t.memory, t.output)
  }

  /** `interpret`: statements in order, stopping at the first failure. */
  function Execute(t: Trace, program: Program): (r: Trace)
    ensures t.outcome.Fail? ==> r == t
    ensures t.output <= r.output && |r.output| <= |t.output| + |program|
    ensures t.memory.Keys <= r.memory.Keys
    ensures t.outcome.Pass? && r.outcome.Fail? ==> r.outcome.error.Runtime?
    decreases |program|
  {
    if program == [] || t.outcome.Fail? then t
    else Execute(Step(t, program[0]), program[1..])
  }

  /** Executing one more statement continues from where the prefix stopped. */
  lemma {:induction false} ExecuteSnoc(t: Trace, p: Program, s: Stmt)
    ensures Execute(t, p + [s]) ==
              var u := Execute(t, p); if u.outcome.Fail? then u else Step(u, s)
    decreases |p|
  {
    if p == [] {
      assert [s][1..] == [];
    } else if t.outcome.Pass? {
      assert (p + [s])[1..] == p[1..] + [s];
      ExecuteSnoc(Step(t, p[0]), p[1..], s);
    }
  }

  // An independent reference semantics, read backwards from each statement.

  /** The value the most recent declaration of `n` in `ss` gives it. */
  function LastValue(ss: seq<Stmt>, n: string): Option<int>
    decreases |ss|
  {
    if ss == [] then None
    else
      var s := ss[|ss| - 1];
      if s.VarDeclStmt? && s.varName == n then Some(s.initialValue)
      else LastValue(ss[..|ss| - 1], n)
  }

  /** The value of a literal or of a variable after the statements `ss`. */
  function Base(ss: seq<Stmt>, leaf: Expr): int {
    match leaf
    case NumberExpr(v) => v
    case IdentifierExpr(n) => if LastValue(ss, n).Some? then LastValue(ss, n).value else 0
    case IncCallExpr(_) => 0
  }

  /** One value per print, in order: its base value plus its number of `inc` wrappers. */
  function Printed(ss: seq<Stmt>): seq<int>
    decreases |ss|
  {
    if ss == [] then []
    else
      var prefix, s := ss[..|ss| - 1], ss[|ss| - 1];
      Printed(prefix) + if s.PrintStmt? then [Base(prefix, Leaf(s.expression)) + Depth(s.expression)] else []
  }

  /** One more statement keeps the store and the output in step with the reference. */
  lemma StepAgrees(q: Program, s: Stmt, u: Trace)
    requires u.output == Printed(q)
    requires forall n :: n in u.memory <==> LastValue(q, n).Some?
    requires forall n :: n in u.memory ==> u.memory[n] == LastValue(q, n).value
    requires Step(u, s).outcome.Pass?
    ensures var v := Step(u, s);
            && v.output == Printed(q + [s])
            && (forall n :: n in v.memory <==> LastValue(q + [s], n).Some?)
            && (forall n :: n in v.memory ==> v.memory[n] == LastValue(q + [s], n).value)
  {
    var p := q + [s];
    assert p[..|p| - 1] == q && p[|p| - 1] == s;
  }

  /** A run from an empty store that does not fail prints what the reference semantics
      says, and its store holds exactly the most recent value of each declared name. */
  lemma {:induction false} ExecuteAgreesWithReference(p: Program)
    requires Execute(Trace(Pass, map[], []), p).outcome.Pass?
    ensures var t := Execute(Trace(Pass, map[], []), p);
            && t.output == Printed(p)
            && (forall n :: n in t.memory <==> LastValue(p, n).Some?)
            && (forall n :: n in t.memory ==> t.memory[n] == LastValue(p, n).value)
    decreases |p|
  {
    if p != [] {
      var q, s := p[..|p| - 1], p[|p| - 1];
      assert p == q + [s];
      ExecuteSnoc(Trace(Pass, map[], []), q, s);
      ExecuteAgreesWithReference(q);
      StepAgrees(q, s, Execute(Trace(Pass, map[], []), q));
    }
  }

  /** The interpreter object; `output` stands for what `std::cout` received. */
  class Interpreter {
    var memory: map<string, int>
    var output: seq<int>

    constructor ()
      ensures memory == map[] && output == []
    {
      memory := map[];
      output := [];
    }

    method ExecuteStmt(s: Stmt) returns (r: Outcome<Error>)
      modifies this
      ensures Trace(r, memory, output) == Step(Trace(Pass, old(memory), old(output)), s)
    {
      match s
      case VarDeclStmt(n, v) =>
        memory := memory[n := v];
        r := Pass;
      case PrintStmt(e) =>
        var v := EvaluateExpr(memory, e);
        if v.Err? {
          return Fail(v.error);
        }
        output := output + [v.value];
        r := Pass;
    }

    method Interpret(program: Program) returns (r: Outcome<Error>)
      modifies this
      ensures Trace(r, memory, output) == Execute(Trace(Pass, old(memory), old(output)), program)
    {
      for i := 0 to |program|
        invariant Execute(Trace(Pass, old(memory), old(output)), program) ==
                  Execute(Trace(Pass, memory, output), program[i..])
      {
        assert program[i..][1..] == program[i + 1..];
        r := ExecuteStmt(program[i]);
        if r.Fail? {
          return;
        }
      }
      r := Pass;
    }
  }
}
