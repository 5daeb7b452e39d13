/** The tree-walking evaluator. The C# interpreter mutates its current
    `Env` and throws `RuntimeException`; here evaluation and execution are
    functions from the scope chain to an outcome, the new chain and the
    lines printed. */
module Interpreter {
  import opened Wrappers
  import opened Strings
  import opened Values
  import opened Tokens
  import opened Ast
  import opened Failures
  import opened Reporting
  import opened Dialects
  import opened Environment

  /** `IsTruthy`: only nil and false are falsy (so `0` is truthy). */
  function IsTruthy(v: Value): (b: bool)
    ensures b <==> v != Value.Nil && v != Bool(false)
  {
    match v
    case Nil => false
    case Bool(b) => b
    case _ => true
  }

  /** `left.Equals(right)` on a non-null boxed value: same type and same
      contents. */
  function HostEquals(a: Value, b: Value): bool
    requires a != Value.Nil
  {
    match a
    case Bool(x) => b.Bool? && b.b == x
    case Num(x) => b.Num? && b.n == x
    case Str(x) => b.Str? && b.s == x
  }

  /** `IsEqual`: nil equals only nil, anything else compares with
      `Equals`; together this is plain structural equality. */
  function IsEqual(a: Value, b: Value): (r: bool)
    ensures r <==> a == b
  {
    if a == Value.Nil && b == Value.Nil then true
    else if a == Value.Nil then false
    else HostEquals(a, b)
  }

  /** The operators guarded by the two-number check. */
  const NumericOperators: set<TokenType> :=
    {Minus, Slash, Star, Greater, GreaterEqual, Less, LessEqual}

  const EqualityOperators: set<TokenType> := {BangEqual, EqualEqual}

  /** Division; the IEEE result of dividing by zero is not modelled. */
  function Quotient(a: real, b: real): real {
    if b == 0.0 then 0.0 else a / b
  }

  /** The arithmetic and comparisons on two numbers. */
  function NumericResult(kind: TokenType, a: real, b: real): Value
    requires kind in NumericOperators
  {
    match kind
    case Minus => Num(a - b)
    case Slash => Num(Quotient(a, b))
    case Star => Num(a * b)
    case Greater => Bool(a > b)
    case GreaterEqual => Bool(a >= b)
    case Less => Bool(a < b)
    case LessEqual => Bool(a <= b)
  }

  /** The operator switch of `visitBinaryExpr`, on operands already
      evaluated. `+` adds numbers or concatenates strings; the other
      arithmetic and the comparisons need two numbers; as written, so do
      `==` and `!=`, which is repaired in the corrected dialect. An operator
      missing from the switch throws NotImplementedException. */
  function BinaryOp(d: Dialect, op: Token, l: Value, r: Value): (res: Outcome<Value>)
    ensures res.Crashed? <==> op.kind !in BinaryOperators
    ensures res.Crashed? ==> res.fault == UnsupportedOperator(op)
    ensures op.kind == Plus ==> (res.Ok? <==> (l.Num? && r.Num?) || (l.Str? && r.Str?))
    ensures op.kind == Plus && l.Num? && r.Num? ==> res == Ok(Num(l.n + r.n))
    ensures op.kind == Plus && l.Str? && r.Str? ==> res == Ok(Str(l.s + r.s))
    ensures op.kind == Plus && res.Thrown? ==> res.error == RuntimeError(op, "Operands must be two numbers or two strings")
    ensures op.kind in NumericOperators ==> (res.Ok? <==> l.Num? && r.Num?)
    ensures op.kind in NumericOperators && l.Num? && r.Num? ==> res == Ok(NumericResult(op.kind, l.n, r.n))
    ensures d == AsWritten && op.kind in EqualityOperators ==> (res.Ok? <==> l.Num? && r.Num?)
    ensures op.kind in EqualityOperators && (d == Corrected || (l.Num? && r.Num?)) ==>
      res == Ok(Bool(if op.kind == EqualEqual then l == r else l != r))
    ensures op.kind != Plus && res.Thrown? ==> res.error == RuntimeError(op, "Operands must be two number.")
  {
    var numbers := l.Num? && r.Num?;
    var mismatch := Thrown(RuntimeError(op, "Operands must be two number."));
    if op.kind == Plus then
      if numbers then Ok(Num(l.n + r.n))
      else if l.Str? && r.Str? then Ok(Str(l.s + r.s))
      else Thrown(RuntimeError(op, "Operands must be two numbers or two strings"))
    else if op.kind in NumericOperators then
      if numbers then Ok(NumericResult(op.kind, l.n, r.n)) else mismatch
    else if op.kind in EqualityOperators then
      if d == AsWritten && !numbers then mismatch
      else if op.kind == BangEqual then Ok(Bool(!IsEqual(l, r)))
      else Ok(Bool(IsEqual(l, r)))
    else Crashed(UnsupportedOperator(op))
  }

  /** The operator switch of `visitUnaryExpr`: `-` needs a number, `!`
      negates truthiness, any other operator yields nil. */
  function UnaryOp(op: Token, v: Value): (res: Outcome<Value>)
    ensures !res.Crashed?
    ensures op.kind == Minus ==> (res.Ok? <==> v.Num?)
    ensures op.kind == Minus && v.Num? ==> res == Ok(Num(-v.n))
    ensures op.kind == Bang ==> res == Ok(Bool(!IsTruthy(v)))
    ensures op.kind != Minus && op.kind != Bang ==> res == Ok(Value.Nil)
    ensures res.Thrown? ==> res.error == RuntimeError(op, "Operand must be a number.")
  {
    match op.kind
    case Minus => if v.Num? then Ok(Num(-v.n)) else Thrown(RuntimeError(op, "Operand must be a number."))
    case Bang => Ok(Bool(!IsTruthy(v)))
    case _ => Ok(Value.Nil)
  }

  /** `Environ.Assign`, as written or as intended. */
  function AssignIn(d: Dialect, env: Env, name: Token, v: Value): (r: Outcome<Env>)
    ensures d == AsWritten ==> !r.Ok?
    ensures d == Corrected ==> !r.Crashed?
    ensures r.Ok? ==> SameShape(r.value, env)
  {
    AssignCorrectedKeepsNames(env, name, v);
    if d == AsWritten then Assign(env, name, v) else AssignCorrected(env, name, v)
  }

  /** The chains have the same scopes binding the same names. */
  predicate SameShape(a: Env, b: Env) {
    |a| == |b| && forall i :: 0 <= i < |a| ==> a[i].Keys == b[i].Keys
  }

  datatype Evaluated = Evaluated(result: Outcome<Value>, env: Env)

  /** `Evaluate(expr)`: operands left to right, stopping at the first
      exception. Only an assignment changes the chain, and only the value of
      a binding: no scope gains or loses a name. As written not even that
      happens, since `Assign` never succeeds. */
  function Evaluate(d: Dialect, env: Env, e: Expr): (r: Evaluated)
    ensures SameShape(r.env, env)
    ensures d == AsWritten ==> r.env == env
    decreases e
  {
    match e
    case LiteralExpr(v) => Evaluated(Ok(v), env)
    case GroupingExpr(inner) => Evaluate(d, env, inner)
    case VariableExpr(name) => Evaluated(Get(env, name), env)
    case AssignExpr(name, value) =>
      var r := Evaluate(d, env, value);
      if !r.result.Ok? then r
      else
        (match AssignIn(d, r.env, name, r.result.value)
         case Ok(env') => Evaluated(Ok(r.result.value), env')
         case Thrown(err) => Evaluated(Thrown(err), r.env)
         case Crashed(f) => Evaluated(Crashed(f), r.env))
    case UnaryExpr(op, right) =>
      var r := Evaluate(d, env, right);
      if !r.result.Ok? then r else Evaluated(UnaryOp(op, r.result.value), r.env)
    case BinaryExpr(left, op, right) =>
      var l := Evaluate(d, env, left);
      if !l.result.Ok? then l
      else
        var r := Evaluate(d, l.env, right);
        if !r.result.Ok? then r
        else Evaluated(BinaryOp(d, op, l.result.value, r.result.value), r.env)
  }

  /** `Stringify`: nil prints as `nil`; a number prints as its text with a
      trailing ".0" removed; other values print their own text. */
  function Stringify(show: real -> string, v: Value): (r: string)
    ensures v == Value.Nil ==> r == "nil"
    ensures v.Str? ==> r == v.s
    ensures v.Bool? ==> r == (if v.b then "True" else "False")
    ensures v.Num? ==> !EndsWith(show(v.n), ".0") ==> r == show(v.n)
    ensures v.Num? ==> EndsWith(show(v.n), ".0") ==> r + ".0" == show(v.n)
  {
    match v
    case Nil => "nil"
    case Num(n) =>
      var text := show(n);
      if EndsWith(text, ".0") then text[..|text| - 2] else text
    case _ => HostText(show, v)
  }

  /** The outcome of running statements: normal completion, a runtime
      error or a host crash, the chain afterwards and the printed lines. */
  datatype Executed = Executed(result: Outcome<()>, env: Env, out: seq<string>)

  function Discard(o: Outcome<Value>): (r: Outcome<()>)
    ensures r.Ok? <==> o.Ok?
    ensures o.Thrown? ==> r == Thrown(o.error)
    ensures o.Crashed? ==> r == Crashed(o.fault)
  {
    match o
    case Ok(_) => Ok(())
    case Thrown(e) => Thrown(e)
    case Crashed(f) => Crashed(f)
  }

  /** What running statements in the current scope does to the chain: only
      the innermost scope can gain names, outer scopes keep theirs, and as
      written the outer scopes are not touched at all. */
  predicate InnerGrowth(d: Dialect, before: Env, after: Env) {
    && |after| == |before| > 0
    && before[0].Keys <= after[0].Keys
    && (forall i :: 1 <= i < |before| ==> after[i].Keys == before[i].Keys)
    && (d == AsWritten ==> after[1..] == before[1..])
  }

  /** `Execute(stmt)`, i.e. `stmt.Accept(this)` on a non-null statement. */
  function Execute(d: Dialect, show: real -> string, env: Env, s: Stmt): (r: Executed)
    requires |env| > 0
    ensures InnerGrowth(d, env, r.env)
    ensures !s.VarStmt? ==> SameShape(r.env, env)
    ensures d == AsWritten && !s.VarStmt? ==> r.env == env
    decreases s, 2, 0
  {
    match s
    case ExpressionStmt(e) =>
      var v := Evaluate(d, env, e);
      Executed(Discard(v.result), v.env, [])
    case PrintStmt(e) =>
      var v := Evaluate(d, env, e);
      if v.result.Ok? then Executed(Ok(()), v.env, [Stringify(show, v.result.value)])
      else Executed(Discard(v.result), v.env, [])
    case VarStmt(name, init) =>
      if init.None? then Executed(Ok(()), Define(env, name.lexeme, Value.Nil), [])
      else
        var v := Evaluate(d, env, init.value);
        if v.result.Ok? then Executed(Ok(()), Define(v.env, name.lexeme, v.result.value), [])
        else Executed(Discard(v.result), v.env, [])
    case BlockStmt(body) => ExecuteBlock(d, show, body, env)
  }

  /** `visitBlockStmt` with `ExecuteBlock(statements, new Env(Environ))`:
      run the body in a fresh innermost scope and drop that scope on every
      way out, normal or not. */
  function ExecuteBlock(d: Dialect, show: real -> string, body: seq<Option<Stmt>>, env: Env): (r: Executed)
    requires |env| > 0
    ensures SameShape(r.env, env)
    ensures d == AsWritten ==> r.env == env
    decreases BlockStmt(body), 1, 0
  {
    var inner := ExecuteFrom(d, show, body, 0, [map[]] + env);
    Executed(inner.result, inner.env[1..], inner.out)
  }

  /** The `foreach (var stmt in statements) Execute(stmt);` loop shared by
      `Interpret` and `ExecuteBlock`, from the `i`-th statement on:
      statements run in order and the first exception ends the loop. A null
      entry crashes the host. */
  function ExecuteFrom(d: Dialect, show: real -> string, stmts: seq<Option<Stmt>>, i: nat, env: Env): (r: Executed)
    requires |env| > 0 && i <= |stmts|
    ensures InnerGrowth(d, env, r.env)
    decreases BlockStmt(stmts), 0, |stmts| - i
  {
    if i == |stmts| then Executed(Ok(()), env, [])
    else
      var first :=
        (match stmts[i]
         case None => Executed(Crashed(NullStatement), env, [])
         case Some(s) => Execute(d, show, env, s));
      if !first.result.Ok? then first
      else
        var rest := ExecuteFrom(d, show, stmts, i + 1, first.env);
        Executed(rest.result, rest.env, first.out + rest.out)
  }

  /** All of a statement list. */
  function ExecuteAll(d: Dialect, show: real -> string, stmts: seq<Option<Stmt>>, env: Env): (r: Executed)
    requires |env| > 0
    ensures InnerGrowth(d, env, r.env)
  {
    ExecuteFrom(d, show, stmts, 0, env)
  }

  /** What `Interpret` leaves behind: the chain, the printed lines, the
      `HadRuntimeError` flag, and the host exception that escaped, if any. */
  datatype Interpreted = Interpreted(env: Env, out: seq<string>, hadRuntimeError: bool, crash: Option<HostFault>)

  /** `Interpret(statements)`: run them in order; a runtime error stops the
      run and is reported once, with `Lox.RuntimeError`; a host exception is
      not caught. */
  function Interpret(d: Dialect, show: real -> string, env: Env, stmts: seq<Option<Stmt>>): (r: Interpreted)
    requires |env| > 0
    ensures |r.env| == |env|
    ensures r.hadRuntimeError ==> r.crash.None?
    ensures r.hadRuntimeError <==> ExecuteAll(d, show, stmts, env).result.Thrown?
    ensures r.hadRuntimeError ==>
      r.out == ExecuteAll(d, show, stmts, env).out + [RuntimeErrorText(ExecuteAll(d, show, stmts, env).result.error)]
    ensures !r.hadRuntimeError ==> r.out == ExecuteAll(d, show, stmts, env).out
    ensures r.env == ExecuteAll(d, show, stmts, env).env
    ensures r.crash.Some? <==> ExecuteAll(d, show, stmts, env).result.Crashed?
    ensures r.crash.Some? ==> r.crash.value == ExecuteAll(d, show, stmts, env).result.fault
  {
    var x := ExecuteAll(d, show, stmts, env);
    match x.result
    case Ok(_) => Interpreted(x.env, x.out, false, None)
    case Thrown(e) => Interpreted(x.env, x.out + [RuntimeErrorText(e)], true, None)
    case Crashed(f) => Interpreted(x.env, x.out, false, Some(f))
  }
}
