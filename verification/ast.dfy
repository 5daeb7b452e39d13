/** The syntax tree: the six expression classes of `Expr` and the four
    statement classes of `Stmt`. Each C# subclass becomes a constructor
    named after its visitor method, and every `Accept` call becomes a
    `match` in the consumer (evaluator, executor, printer). */
module Ast {
  import opened Wrappers
  import opened Values
  import opened Tokens

  datatype Expr =
    | AssignExpr(name: Token, value: Expr)
    | BinaryExpr(left: Expr, op: Token, right: Expr)
    | GroupingExpr(expression: Expr)
    | LiteralExpr(literal: Value)
    | UnaryExpr(op: Token, right: Expr)
    | VariableExpr(name: Token)

  /** A block holds its statements in source order; `None` is the null
      placeholder the parser leaves for a declaration it could not parse.
      A `VarStmt` without initializer has `None` there. */
  datatype Stmt =
    | BlockStmt(statements: seq<Option<Stmt>>)
    | ExpressionStmt(expression: Expr)
    | PrintStmt(expression: Expr)
    | VarStmt(name: Token, initializer: Option<Expr>)

  /** The operator kinds the evaluator's binary switch handles. */
  const BinaryOperators: set<TokenType> :=
    {Plus, Minus, Slash, Star, BangEqual, EqualEqual, Greater, GreaterEqual, Less, LessEqual}

  /** Every binary node carries an operator the evaluator knows. */
  predicate WellFormedExpr(e: Expr) {
    match e
    case AssignExpr(_, value) => WellFormedExpr(value)
    case BinaryExpr(l, op, r) => op.kind in BinaryOperators && WellFormedExpr(l) && WellFormedExpr(r)
    case GroupingExpr(inner) => WellFormedExpr(inner)
    case LiteralExpr(_) => true
    case UnaryExpr(_, r) => WellFormedExpr(r)
    case VariableExpr(_) => true
  }

  /** Well-formed expressions and no null placeholder anywhere. */
  predicate WellFormedStmt(s: Stmt) {
    match s
    case BlockStmt(body) => forall i :: 0 <= i < |body| ==> body[i].Some? && WellFormedStmt(body[i].value)
    case ExpressionStmt(e) => WellFormedExpr(e)
    case PrintStmt(e) => WellFormedExpr(e)
    case VarStmt(_, init) => init.None? || WellFormedExpr(init.value)
  }

  /** A statement list with every entry present and well formed. */
  predicate WellFormedList(stmts: seq<Option<Stmt>>) {
    forall i :: 0 <= i < |stmts| ==> stmts[i].Some? && WellFormedStmt(stmts[i].value)
  }

  /** A well-formed entry in front of a well-formed list. */
  lemma WellFormedCons(s: Option<Stmt>, rest: seq<Option<Stmt>>)
    requires s.Some? && WellFormedStmt(s.value) && WellFormedList(rest)
    ensures WellFormedList([s] + rest)
  {
    forall i | 0 <= i < |[s] + rest|
      ensures ([s] + rest)[i].Some? && WellFormedStmt(([s] + rest)[i].value)
    {
      if i > 0 {
        assert ([s] + rest)[i] == rest[i - 1];
      }
    }
  }
}
