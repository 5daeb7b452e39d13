/** Properties of the evaluator and executor that relate several calls:
    sequencing, the scope discipline of blocks, the host crashes of the
    code as written and their absence once repaired. */
module InterpreterFacts {
  import opened Wrappers
  import opened Values
  import opened Tokens
  import opened Ast
  import opened Failures
  import opened Dialects
  import opened Environment
  import opened Interpreter

  /** Running the tail of a list from index `|s1| + j` is running `s2`
      from `j`. */
  lemma {:induction false} ExecuteShift(d: Dialect, show: real -> string, s1: seq<Option<Stmt>>, s2: seq<Option<Stmt>>, j: nat, env: Env)
    requires |env| > 0 && j <= |s2|
    ensures ExecuteFrom(d, show, s1 + s2, |s1| + j, env) == ExecuteFrom(d, show, s2, j, env)
    decreases |s2| - j
  {
    if j < |s2| {
      assert (s1 + s2)[|s1| + j] == s2[j];
      var first :=
        (match s2[j]
         case None => Executed(Crashed(NullStatement), env, [])
         case Some(s) => Execute(d, show, env, s));
      if first.result.Ok? {
        ExecuteShift(d, show, s1, s2, j + 1, first.env);
      }
    }
  }

  /** One statement of a list that completes normally: the rest of the
      list runs on the chain it leaves, after its printed lines. */
  lemma ExecuteFromStep(d: Dialect, show: real -> string, stmts: seq<Option<Stmt>>, i: nat, env: Env, first: Executed)
    requires |env| > 0 && i < |stmts|
    requires first == (match stmts[i]
                       case None => Executed(Crashed(NullStatement), env, [])
                       case Some(s) => Execute(d, show, env, s))
    requires first.result.Ok?
    ensures |first.env| > 0
    ensures var rest := ExecuteFrom(d, show, stmts, i + 1, first.env);
      ExecuteFrom(d, show, stmts, i, env) == Executed(rest.result, rest.env, first.out + rest.out)
  {
  }

  /** A statement of a list that does not complete normally ends the
      list with its own outcome. */
  lemma ExecuteFromStop(d: Dialect, show: real -> string, stmts: seq<Option<Stmt>>, i: nat, env: Env, first: Executed)
    requires |env| > 0 && i < |stmts|
    requires first == (match stmts[i]
                       case None => Executed(Crashed(NullStatement), env, [])
                       case Some(s) => Execute(d, show, env, s))
    requires !first.result.Ok?
    ensures ExecuteFrom(d, show, stmts, i, env) == first
  {
  }

  /** Sequencing from index `i` of the first list. */
  lemma {:induction false} ExecuteFromAppend(d: Dialect, show: real -> string, s1: seq<Option<Stmt>>, s2: seq<Option<Stmt>>, i: nat, env: Env)
    requires |env| > 0 && i <= |s1|
    ensures var a := ExecuteFrom(d, show, s1, i, env);
      ExecuteFrom(d, show, s1 + s2, i, env) ==
        if a.result.Ok? then
          var b := ExecuteAll(d, show, s2, a.env);
          Executed(b.result, b.env, a.out + b.out)
        else a
    decreases |s1| - i
  {
    if i == |s1| {
      ExecuteShift(d, show, s1, s2, 0, env);
    } else {
      assert (s1 + s2)[i] == s1[i];
      var first :=
        (match s1[i]
         case None => Executed(Crashed(NullStatement), env, [])
         case Some(s) => Execute(d, show, env, s));
      if !first.result.Ok? {
        ExecuteFromStop(d, show, s1, i, env, first);
        ExecuteFromStop(d, show, s1 + s2, i, env, first);
      } else {
        ExecuteFromAppend(d, show, s1, s2, i + 1, first.env);
        var a := ExecuteFrom(d, show, s1, i + 1, first.env);
        ExecuteFromStep(d, show, s1, i, env, first);
        ExecuteFromStep(d, show, s1 + s2, i, env, first);
        if a.result.Ok? {
          var b := ExecuteAll(d, show, s2, a.env);
          assert first.out + (a.out + b.out) == (first.out + a.out) + b.out;
        }
      }
    }
  }

  /** Running `s1 + s2` runs `s1`, and then `s2` on the chain it left if
      and only if `s1` completed normally; the printed lines are those of
      `s1` followed by those of `s2`. */
  lemma ExecuteAllAppend(d: Dialect, show: real -> string, s1: seq<Option<Stmt>>, s2: seq<Option<Stmt>>, env: Env)
    requires |env| > 0
    ensures var a := ExecuteAll(d, show, s1, env);
      ExecuteAll(d, show, s1 + s2, env) ==
        if a.result.Ok? then
          var b := ExecuteAll(d, show, s2, a.env);
          Executed(b.result, b.env, a.out + b.out)
        else a
  {
    ExecuteFromAppend(d, show, s1, s2, 0, env);
  }

  /** The body `var x = v; print x;` of the block below, run on a chain
      `env`: it binds `x` in the innermost scope and prints `v`. */
  lemma DeclarePrint(d: Dialect, show: real -> string, env: Env, name: Token, v: Value)
    requires |env| > 0
    ensures ExecuteFrom(d, show, ShadowBody(name, v), 0, env)
            == Executed(Ok(()), Define(env, name.lexeme, v), [Stringify(show, v)])
  {
    var body := ShadowBody(name, v);
    var inner := Define(env, name.lexeme, v);
    assert Execute(d, show, env, body[0].value) == Executed(Ok(()), inner, []);
    assert DefinedAt(inner, name.lexeme, 0);
    assert Evaluate(d, inner, VariableExpr(name)) == Evaluated(Ok(v), inner);
    assert Execute(d, show, inner, body[1].value) == Executed(Ok(()), inner, [Stringify(show, v)]);
    assert ExecuteFrom(d, show, body, 2, inner) == Executed(Ok(()), inner, []);
    assert ExecuteFrom(d, show, body, 1, inner) == Executed(Ok(()), inner, [Stringify(show, v)]);
  }

  /** The statements `var x = v; print x;`. */
  function ShadowBody(name: Token, v: Value): seq<Option<Stmt>> {
    [Some(VarStmt(name, Some(LiteralExpr(v)))), Some(PrintStmt(VariableExpr(name)))]
  }

  /** A block's declaration shadows the outer binding while the block
      runs and is gone when it ends: `{ var x = v; print x; }` prints `v`
      and leaves the chain exactly as it found it, in both dialects. */
  lemma BlockShadowing(d: Dialect, show: real -> string, env: Env, name: Token, v: Value)
    requires |env| > 0
    ensures ExecuteBlock(d, show, ShadowBody(name, v), env) == Executed(Ok(()), env, [Stringify(show, v)])
  {
    DeclarePrint(d, show, [map[]] + env, name, v);
    assert Define([map[]] + env, name.lexeme, v)[1..] == env;
  }

  /** `var x = a; x = b;` as written: the declaration succeeds and the
      assignment then adds a key the innermost scope already has, which
      throws out of the host. Repaired, the assignment overwrites `a` with
      `b` and nothing is printed. */
  lemma DeclareThenAssign(d: Dialect, show: real -> string, env: Env, name: Token, a: Value, b: Value)
    requires |env| > 0
    ensures d == AsWritten ==>
      ExecuteAll(d, show, DeclareAssign(name, a, b), env)
        == Executed(Crashed(DuplicateKey(name.lexeme)), Define(env, name.lexeme, a), [])
    ensures d == Corrected ==>
      ExecuteAll(d, show, DeclareAssign(name, a, b), env)
        == Executed(Ok(()), Define(env, name.lexeme, b), [])
  {
    var prog := DeclareAssign(name, a, b);
    var declared := Define(env, name.lexeme, a);
    assert Execute(d, show, env, prog[0].value) == Executed(Ok(()), declared, []);
    assert DefinedAt(declared, name.lexeme, 0);
    var assignment := AssignExpr(name, LiteralExpr(b));
    if d == AsWritten {
      assert Assign(declared, name, b) == Crashed(DuplicateKey(name.lexeme));
      assert Evaluate(d, declared, assignment) == Evaluated(Crashed(DuplicateKey(name.lexeme)), declared);
      assert Execute(d, show, declared, prog[1].value) == Executed(Crashed(DuplicateKey(name.lexeme)), declared, []);
      assert ExecuteFrom(d, show, prog, 1, declared) == Executed(Crashed(DuplicateKey(name.lexeme)), declared, []);
    } else {
      var updated := [declared[0][name.lexeme := b]] + declared[1..];
      assert declared[..0] == [];
      assert AssignCorrected(declared, name, b) == Ok(updated);
      assert declared[0][name.lexeme := b] == env[0][name.lexeme := b];
      assert declared[1..] == env[1..];
      assert updated == Define(env, name.lexeme, b);
      assert Evaluate(d, declared, assignment) == Evaluated(Ok(b), updated);
      assert Execute(d, show, declared, prog[1].value) == Executed(Ok(()), updated, []);
      assert ExecuteFrom(d, show, prog, 2, updated) == Executed(Ok(()), updated, []);
      assert ExecuteFrom(d, show, prog, 1, declared) == Executed(Ok(()), updated, []);
    }
  }

  /** The statements `var x = a; x = b;`. */
  function DeclareAssign(name: Token, a: Value, b: Value): seq<Option<Stmt>> {
    [Some(VarStmt(name, Some(LiteralExpr(a)))), Some(ExpressionStmt(AssignExpr(name, LiteralExpr(b))))]
  }

  /** The corrected evaluator never crashes the host on a well-formed
      expression: every failure is a Lox runtime error. */
  lemma {:induction false} EvaluateNeverCrashes(env: Env, e: Expr)
    requires WellFormedExpr(e)
    ensures !Evaluate(Corrected, env, e).result.Crashed?
    decreases e
  {
    match e
    case AssignExpr(_, value) => EvaluateNeverCrashes(env, value);
    case GroupingExpr(inner) => EvaluateNeverCrashes(env, inner);
    case UnaryExpr(_, right) => EvaluateNeverCrashes(env, right);
    case BinaryExpr(left, _, right) =>
      EvaluateNeverCrashes(env, left);
      EvaluateNeverCrashes(Evaluate(Corrected, env, left).env, right);
    case LiteralExpr(_) =>
    case VariableExpr(_) =>
  }

  /** The corrected executor never crashes the host on a well-formed
      statement. */
  lemma {:induction false} ExecuteNeverCrashes(show: real -> string, env: Env, s: Stmt)
    requires |env| > 0 && WellFormedStmt(s)
    ensures !Execute(Corrected, show, env, s).result.Crashed?
    decreases s, 1
  {
    match s
    case ExpressionStmt(e) => EvaluateNeverCrashes(env, e);
    case PrintStmt(e) => EvaluateNeverCrashes(env, e);
    case VarStmt(_, init) =>
      if init.Some? {
        EvaluateNeverCrashes(env, init.value);
      }
    case BlockStmt(body) =>
      assert WellFormedList(body);
      ExecuteFromNeverCrashes(show, body, 0, [map[]] + env);
  }

  /** A list does not crash from `i` when its entry at `i` does not, and,
      if that entry completes normally, the rest does not either. */
  lemma ExecuteFromNoCrashStep(show: real -> string, stmts: seq<Option<Stmt>>, i: nat, env: Env)
    requires |env| > 0 && i < |stmts| && stmts[i].Some?
    requires !Execute(Corrected, show, env, stmts[i].value).result.Crashed?
    requires var first := Execute(Corrected, show, env, stmts[i].value);
      first.result.Ok? ==> !ExecuteFrom(Corrected, show, stmts, i + 1, first.env).result.Crashed?
    ensures !ExecuteFrom(Corrected, show, stmts, i, env).result.Crashed?
  {
  }

  lemma {:induction false} ExecuteFromNeverCrashes(show: real -> string, stmts: seq<Option<Stmt>>, i: nat, env: Env)
    requires |env| > 0 && i <= |stmts| && WellFormedList(stmts)
    ensures !ExecuteFrom(Corrected, show, stmts, i, env).result.Crashed?
    decreases BlockStmt(stmts), 0, |stmts| - i
  {
    if i < |stmts| {
      var s := stmts[i].value;
      assert stmts[i] in stmts && stmts[i] == Some(s);
      assert WellFormedStmt(s);
      ExecuteNeverCrashes(show, env, s);
      var first := Execute(Corrected, show, env, s);
      if first.result.Ok? {
        ExecuteFromNeverCrashes(show, stmts, i + 1, first.env);
      }
      ExecuteFromNoCrashStep(show, stmts, i, env);
    }
  }

  /** A whole well-formed program runs without a host crash when
      corrected. */
  lemma ProgramNeverCrashes(show: real -> string, stmts: seq<Option<Stmt>>, env: Env)
    requires |env| > 0 && WellFormedList(stmts)
    ensures !ExecuteAll(Corrected, show, stmts, env).result.Crashed?
    ensures Interpret(Corrected, show, env, stmts).crash.None?
  {
    ExecuteFromNeverCrashes(show, stmts, 0, env);
  }

  /** As written, an assignment expression never yields a value: once its
      right-hand side evaluates, an assignment to a bound name crashes the
      host and one to an unbound name is a runtime error. */
  lemma AssignmentAsWritten(env: Env, name: Token, value: Expr)
    ensures var r := Evaluate(AsWritten, env, AssignExpr(name, value));
      && !r.result.Ok?
      && r.env == env
      && (Evaluate(AsWritten, env, value).result.Ok? ==>
            (r.result.Crashed? <==> Defined(env, name.lexeme)) &&
            (r.result.Crashed? ==> r.result.fault == DuplicateKey(name.lexeme)))
  {
  }

  /** Corrected, assigning to a bound name stores the value in the nearest
      scope binding it, and reading the name back gives the value. */
  lemma AssignmentCorrected(env: Env, name: Token, value: Expr)
    requires Defined(env, name.lexeme)
    requires Evaluate(Corrected, env, value).result.Ok?
    ensures var r := Evaluate(Corrected, env, AssignExpr(name, value));
      && r.result == Evaluate(Corrected, env, value).result
      && Get(r.env, name) == r.result
  {
    var ev := Evaluate(Corrected, env, value);
    var i :| 0 <= i < |env| && name.lexeme in env[i];
    assert name.lexeme in ev.env[i].Keys;
    AssignCorrectedThenGet(ev.env, name, name.(lexeme := name.lexeme + "'"), ev.result.value);
  }

  /** Equality as written: comparing two equal strings is an "Operands
      must be two number." error rather than `true`. */
  lemma StringEqualityAsWritten(op: Token, s: string)
    requires op.kind == EqualEqual
    ensures BinaryOp(AsWritten, op, Str(s), Str(s)) == Thrown(RuntimeError(op, "Operands must be two number."))
    ensures BinaryOp(Corrected, op, Str(s), Str(s)) == Ok(Bool(true))
  {
  }

  /** Corrected equality is total and agrees with structural equality for
      every pair of values, including nil and mixed types. */
  lemma EqualityCorrected(op: Token, a: Value, b: Value)
    requires op.kind == EqualEqual
    ensures BinaryOp(Corrected, op, a, b) == Ok(Bool(a == b))
    ensures BinaryOp(Corrected, op, a, b).value.b <==> IsEqual(a, b)
  {
  }

  /** `var x;` binds `x` to nil in the current scope. */
  lemma DeclareWithoutInitializer(d: Dialect, show: real -> string, env: Env, name: Token)
    requires |env| > 0
    ensures Execute(d, show, env, VarStmt(name, None)) == Executed(Ok(()), Define(env, name.lexeme, Value.Nil), [])
  {
  }

  /** Operands are evaluated left to right: an exception in the left
      operand is the outcome of the whole binary expression, whatever the
      right operand would have done. */
  lemma LeftOperandFirst(d: Dialect, env: Env, left: Expr, op: Token, right: Expr)
    requires !Evaluate(d, env, left).result.Ok?
    ensures Evaluate(d, env, BinaryExpr(left, op, right)) == Evaluate(d, env, left)
  {
  }

  /** The right operand is evaluated in the chain the left one left
      behind, and its exception is the outcome when the left succeeded. */
  lemma RightOperandSecond(d: Dialect, env: Env, left: Expr, op: Token, right: Expr)
    requires Evaluate(d, env, left).result.Ok?
    requires !Evaluate(d, Evaluate(d, env, left).env, right).result.Ok?
    ensures Evaluate(d, env, BinaryExpr(left, op, right)) == Evaluate(d, Evaluate(d, env, left).env, right)
  {
  }
}
