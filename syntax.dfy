/** Tokens, the abstract syntax tree and the error taxonomy of IncLang. */
module Syntax {

  datatype TokenKind =
    | Inc | Print | Assign | Semicolon | LParen | RParen
    | Number | Identifier | EndOfFile | Unknown

  /** A token with the text it was scanned from and the 1-based line it was found on. */
  datatype Token = Token(kind: TokenKind, lexeme: string, line: int)

  /** Expressions: a closed family in place of the dynamic_cast hierarchy. */
  datatype Expr =
    | NumberExpr(value: int)
    | IdentifierExpr(name: string)
    | IncCallExpr(argument: Expr)

  /** A declaration's initialiser is always a number literal; it is kept as its value. */
  datatype Stmt =
    | VarDeclStmt(varName: string, initialValue: int)
    | PrintStmt(expression: Expr)

  type Program = seq<Stmt>

  /** Syntax errors: a failed `consume` names what was expected, the lexeme found
      and its line; the two dispatch failures carry nothing. */
  datatype SyntaxError =
    | Unexpected(expected: string, found: string, line: int)
    | ExpectedExpression
    | ExpectedStatement

  datatype Error =
    | Syntax(syntax: SyntaxError)
    | Semantic(undeclared: string)
    | Runtime(unassigned: string)

  /** The variables an expression mentions. */
  function Vars(e: Expr): set<string> {
    match e
    case NumberExpr(_) => {}
    case IdentifierExpr(n) => {n}
    case IncCallExpr(a) => Vars(a)
  }

  /** The number of `inc` wrappers around an expression's innermost operand. */
  function Depth(e: Expr): nat {
    match e
    case IncCallExpr(a) => Depth(a) + 1
    case _ => 0
  }

  /** The innermost operand: a literal or a variable, never an `inc` call. */
  function Leaf(e: Expr): (l: Expr)
    ensures !l.IncCallExpr?
    ensures Vars(e) == Vars(l)
  {
    match e
    case IncCallExpr(a) => Leaf(a)
    case _ => e
  }
}
