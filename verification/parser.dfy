/** The recursive-descent parser. The C# class keeps the cursor in a
    mutable field and unwinds with `ParserException`; here every parse
    function takes the cursor, and returns either `Done` with the parsed
    value and the new cursor, or `Panic` with the cursor where the exception
    was thrown. Both carry the diagnostics reported along the way
    (`Lox.Error` calls, in order). Termination is measured by the number of
    tokens left and, at equal cursor, by the grammar level. */
module Parser {
  import opened Wrappers
  import opened Values
  import opened Tokens
  import opened Ast
  import opened Reporting
  import opened Dialects

  /** The token lists the parser is given: they end with the end-of-input
      token, so `Peek()` and `Previous()` stay in bounds. */
  predicate Terminated(toks: seq<Token>) {
    |toks| > 0 && toks[|toks| - 1].kind == Eof
  }

  /** The parse error messages, as the parser reports them. */
  const InvalidTarget: string := "Invalid assignment target."
  const ExpectExpression: string := "Expected expression."
  const ExpectRightParen: string := "Expect ')' after expression."
  const ExpectVariableName: string := "Expect variable name."
  const ExpectVarSemicolon: string := "Expect ';' after variable declaration."
  const ExpectRightBrace: string := "Expect '}' after block."
  const ExpectValueSemicolon: string := "Expect ';' after value"

  datatype Parsed<+T> =
    | Done(value: T, pos: nat, diags: seq<Diagnostic>)
    | Panic(pos: nat, diags: seq<Diagnostic>)

  function IsAtEnd(toks: seq<Token>, pos: nat): bool
    requires pos < |toks|
  {
    toks[pos].kind == Eof
  }

  /** `Check(type)`: never true at the end-of-input token. */
  function Check(toks: seq<Token>, pos: nat, kind: TokenType): bool
    requires pos < |toks|
  {
    !IsAtEnd(toks, pos) && toks[pos].kind == kind
  }

  /** `Match(types...)` without its side effect: whether the current token
      has one of the types (the caller then advances by one). */
  function MatchAny(toks: seq<Token>, pos: nat, kinds: set<TokenType>): bool
    requires pos < |toks|
  {
    !IsAtEnd(toks, pos) && toks[pos].kind in kinds
  }

  /** `Advance()`: the cursor moves by one unless it is on the end-of-input
      token, so it never leaves the list. */
  function Advance(toks: seq<Token>, pos: nat): (next: nat)
    requires Terminated(toks) && pos < |toks|
    ensures next < |toks|
    ensures IsAtEnd(toks, pos) ==> next == pos
    ensures !IsAtEnd(toks, pos) ==> next == pos + 1
  {
    if !IsAtEnd(toks, pos) then pos + 1 else pos
  }

  /** `Consume(type, message)`: advance past a token of the expected type,
      or report the error at the current token and throw. */
  function Consume(toks: seq<Token>, pos: nat, kind: TokenType, message: string): (r: Parsed<Token>)
    requires Terminated(toks) && pos < |toks|
    ensures r.Done? <==> Check(toks, pos, kind)
    ensures r.Done? ==> r.value == toks[pos] && r.pos == pos + 1 < |toks| && r.diags == []
    ensures r.Panic? ==> r.pos == pos && r.diags == [ErrorAt(toks[pos], message)]
  {
    if Check(toks, pos, kind) then Done(toks[pos], pos + 1, [])
    else Panic(pos, [ErrorAt(toks[pos], message)])
  }

  /** What every expression-level function promises: the cursor stays on
      the list and never moves back; success consumes at least one token
      and reports nothing; a failure has reported at most one error, and
      exactly one in the corrected dialect. */
  predicate ExprStep<T>(d: Dialect, toks: seq<Token>, pos: nat, r: Parsed<T>) {
    && pos <= r.pos < |toks|
    && (r.Done? ==> pos < r.pos && r.diags == [])
    && (r.Panic? ==> |r.diags| <= 1 && (d == Corrected ==> |r.diags| == 1))
  }

  /** The binary precedence levels, loosest first. */
  datatype Level = EqualityLevel | ComparisonLevel | TermLevel | FactorLevel

  /** The operators each level's loop matches. */
  function Operators(l: Level): (ops: set<TokenType>)
    ensures ops <= BinaryOperators
  {
    match l
    case EqualityLevel => {BangEqual, EqualEqual}
    case ComparisonLevel => {Greater, GreaterEqual, Less, LessEqual}
    case TermLevel => {Minus, Plus}
    case FactorLevel => {Slash, Star}
  }

  /** Position of each level in the termination measure. */
  function LevelRank(l: Level): nat {
    match l
    case FactorLevel => 4
    case TermLevel => 7
    case ComparisonLevel => 10
    case EqualityLevel => 13
  }

  /** How tightly a binary operator binds: 1 for the equality operators up
      to 4 for the factor operators, 0 for a kind that is no binary
      operator. `Unary()` binds tighter than any of them. */
  function Binding(k: TokenType): (b: nat)
    ensures k in BinaryOperators <==> 0 < b
    ensures b <= 4
  {
    if k in {BangEqual, EqualEqual} then 1
    else if k in {Greater, GreaterEqual, Less, LessEqual} then 2
    else if k in {Minus, Plus} then 3
    else if k in {Slash, Star} then 4
    else 0
  }

  const UnaryBinding: nat := 5

  /** The binding of the operators each level's loop matches. */
  function LevelBinding(l: Level): (b: nat)
    ensures 0 < b < UnaryBinding
    ensures forall k :: k in Operators(l) ==> Binding(k) == b
  {
    match l
    case EqualityLevel => 1
    case ComparisonLevel => 2
    case TermLevel => 3
    case FactorLevel => 4
  }

  /** The shape that precedence parsing gives a tree, where `n` is the
      loosest binding that may show at its top without parentheses (0:
      anything, an assignment included; `UnaryBinding`: no binary operator
      at the top). A binary node binds at least as tightly as `n`; its left
      operand may hold operators of its own level (left association) but its
      right operand only tighter ones; an assignment stands only at the
      loosest level; parentheses and `=` start afresh. */
  predicate Layered(e: Expr, n: nat) {
    match e
    case AssignExpr(_, value) => n == 0 && Layered(value, 0)
    case BinaryExpr(l, op, r) =>
      && 0 < Binding(op.kind) && n <= Binding(op.kind)
      && Layered(l, Binding(op.kind)) && Layered(r, Binding(op.kind) + 1)
    case GroupingExpr(inner) => Layered(inner, 0)
    case LiteralExpr(_) => true
    case UnaryExpr(_, r) => Layered(r, UnaryBinding)
    case VariableExpr(_) => true
  }

  /** `Expression()`. */
  function Expression(d: Dialect, toks: seq<Token>, pos: nat): (r: Parsed<Expr>)
    requires Terminated(toks) && pos < |toks|
    ensures ExprStep(d, toks, pos, r)
    ensures r.Done? ==> WellFormedExpr(r.value) && Layered(r.value, 0)
    decreases |toks| - pos, 15
  {
    Assignment(d, toks, pos)
  }

  /** `Assignment()`: right-associative; the target must have parsed as a
      variable. Any other target throws "Invalid assignment target." which,
      as written, is never reported. */
  function Assignment(d: Dialect, toks: seq<Token>, pos: nat): (r: Parsed<Expr>)
    requires Terminated(toks) && pos < |toks|
    ensures ExprStep(d, toks, pos, r)
    ensures r.Done? ==> WellFormedExpr(r.value) && Layered(r.value, 0)
    decreases |toks| - pos, 14
  {
    match BinaryLevel(d, EqualityLevel, toks, pos)
    case Panic(p, ds) => Panic(p, ds)
    case Done(target, p, _) =>
      if Check(toks, p, Equal) then
        var equals := toks[p];
        match Assignment(d, toks, p + 1)
        case Panic(q, ds) => Panic(q, ds)
        case Done(value, q, _) =>
          if target.VariableExpr? then Done(AssignExpr(target.name, value), q, [])
          else Panic(q, if d == Corrected then [ErrorAt(equals, InvalidTarget)] else [])
      else Done(target, p, [])
  }

  /** `Equality()`, `Compare()`, `Term()` and `Factor()`: an operand, then
      the left-associative loop. */
  function BinaryLevel(d: Dialect, l: Level, toks: seq<Token>, pos: nat): (r: Parsed<Expr>)
    requires Terminated(toks) && pos < |toks|
    ensures ExprStep(d, toks, pos, r)
    ensures r.Done? ==> WellFormedExpr(r.value) && Layered(r.value, LevelBinding(l))
    decreases |toks| - pos, LevelRank(l)
  {
    match Operand(d, l, toks, pos)
    case Panic(p, ds) => Panic(p, ds)
    case Done(left, p, _) => BinaryTail(d, l, toks, p, left)
  }

  /** The operand of a level: the next tighter level, or `Unary()` below
      `Factor()`. */
  function Operand(d: Dialect, l: Level, toks: seq<Token>, pos: nat): (r: Parsed<Expr>)
    requires Terminated(toks) && pos < |toks|
    ensures ExprStep(d, toks, pos, r)
    ensures r.Done? ==> WellFormedExpr(r.value) && Layered(r.value, LevelBinding(l) + 1)
    decreases |toks| - pos, LevelRank(l) - 2
  {
    match l
    case EqualityLevel => BinaryLevel(d, ComparisonLevel, toks, pos)
    case ComparisonLevel => BinaryLevel(d, TermLevel, toks, pos)
    case TermLevel => BinaryLevel(d, FactorLevel, toks, pos)
    case FactorLevel => Unary(d, toks, pos)
  }

  /** The `while (Match(ops))` loop of a level: each round wraps the
      expression built so far as the left operand of a new binary node. */
  function BinaryTail(d: Dialect, l: Level, toks: seq<Token>, pos: nat, left: Expr): (r: Parsed<Expr>)
    requires Terminated(toks) && pos < |toks|
    requires WellFormedExpr(left) && Layered(left, LevelBinding(l))
    ensures pos <= r.pos < |toks|
    ensures r.Done? ==> r.diags == [] && WellFormedExpr(r.value) && Layered(r.value, LevelBinding(l))
    ensures r.Done? ==> !MatchAny(toks, r.pos, Operators(l))
    ensures r.Panic? ==> |r.diags| <= 1 && (d == Corrected ==> |r.diags| == 1)
    decreases |toks| - pos, LevelRank(l) - 1
  {
    if MatchAny(toks, pos, Operators(l)) then
      var op := toks[pos];
      match Operand(d, l, toks, pos + 1)
      case Panic(q, ds) => Panic(q, ds)
      case Done(right, q, _) => BinaryTail(d, l, toks, q, BinaryExpr(left, op, right))
    else Done(left, pos, [])
  }

  /** `Unary()`: prefix `!` and `-`, right-nested. */
  function Unary(d: Dialect, toks: seq<Token>, pos: nat): (r: Parsed<Expr>)
    requires Terminated(toks) && pos < |toks|
    ensures ExprStep(d, toks, pos, r)
    ensures r.Done? ==> WellFormedExpr(r.value) && Layered(r.value, UnaryBinding)
    decreases |toks| - pos, 1
  {
    if MatchAny(toks, pos, {Bang, Minus}) then
      var op := toks[pos];
      match Unary(d, toks, pos + 1)
      case Panic(q, ds) => Panic(q, ds)
      case Done(right, q, _) => Done(UnaryExpr(op, right), q, [])
    else Primary(d, toks, pos)
  }

  /** The token kinds a primary expression can start with. */
  const PrimaryStarts: set<TokenType> := {False, True, TokenType.Nil, Number, String, Identifier, LeftParen}

  /** `Primary()`: literals, variables and parenthesised expressions;
      anything else is "Expected expression." at the current token. */
  function Primary(d: Dialect, toks: seq<Token>, pos: nat): (r: Parsed<Expr>)
    requires Terminated(toks) && pos < |toks|
    ensures ExprStep(d, toks, pos, r)
    ensures r.Done? ==> WellFormedExpr(r.value) && Layered(r.value, UnaryBinding)
    ensures r.Done? && !Check(toks, pos, LeftParen) ==> r.pos == pos + 1
    ensures Check(toks, pos, Number) || Check(toks, pos, String) ==> r == Done(LiteralExpr(toks[pos].literal), pos + 1, [])
    ensures Check(toks, pos, Identifier) ==> r == Done(VariableExpr(toks[pos]), pos + 1, [])
    ensures r.Panic? && r.pos == pos ==> r.diags == [ErrorAt(toks[pos], ExpectExpression)]
    ensures !MatchAny(toks, pos, PrimaryStarts) ==> r == Panic(pos, [ErrorAt(toks[pos], ExpectExpression)])
    decreases |toks| - pos, 0
  {
    if Check(toks, pos, False) then Done(LiteralExpr(Bool(false)), pos + 1, [])
    else if Check(toks, pos, True) then Done(LiteralExpr(Bool(true)), pos + 1, [])
    else if Check(toks, pos, TokenType.Nil) then Done(LiteralExpr(Value.Nil), pos + 1, [])
    else if MatchAny(toks, pos, {Number, String}) then Done(LiteralExpr(toks[pos].literal), pos + 1, [])
    else if Check(toks, pos, Identifier) then Done(VariableExpr(toks[pos]), pos + 1, [])
    else if Check(toks, pos, LeftParen) then
      match Expression(d, toks, pos + 1)
      case Panic(q, ds) => Panic(q, ds)
      case Done(inner, q, _) =>
        match Consume(toks, q, RightParen, ExpectRightParen)
        case Panic(q', ds) => Panic(q', ds)
        case Done(_, q', _) => Done(GroupingExpr(inner), q', [])
    else Panic(pos, [ErrorAt(toks[pos], ExpectExpression)])
  }

  /** The keywords that begin a statement, where recovery stops. */
  const SyncKeywords: set<TokenType> := {Class, Fun, Var, For, If, While, Print, Return}

  /** A statement boundary: the end of input, just after a `;`, or just
      before a statement keyword. */
  predicate AtBoundary(toks: seq<Token>, pos: nat)
    requires pos < |toks|
  {
    || IsAtEnd(toks, pos)
    || (pos > 0 && toks[pos - 1].kind == Semicolon)
    || toks[pos].kind in SyncKeywords
  }

  /** `Synchronize()`: skip one token, then stop at the first boundary. */
  function Synchronize(toks: seq<Token>, pos: nat): (r: nat)
    requires Terminated(toks) && pos < |toks|
    requires !IsAtEnd(toks, pos) || pos > 0
    ensures pos <= r < |toks|
    ensures !IsAtEnd(toks, pos) ==> pos < r
    ensures AtBoundary(toks, r)
    ensures forall q :: Advance(toks, pos) <= q < r ==> !AtBoundary(toks, q)
  {
    SyncLoop(toks, Advance(toks, pos))
  }

  /** The `while (!IsAtEnd())` loop of `Synchronize()`. */
  function SyncLoop(toks: seq<Token>, pos: nat): (r: nat)
    requires Terminated(toks) && 0 < pos < |toks|
    ensures pos <= r < |toks|
    ensures AtBoundary(toks, r)
    ensures forall q :: pos <= q < r ==> !AtBoundary(toks, q)
    decreases |toks| - pos
  {
    if IsAtEnd(toks, pos) then pos
    else if toks[pos - 1].kind == Semicolon then pos
    else if toks[pos].kind in SyncKeywords then pos
    else SyncLoop(toks, pos + 1)
  }

  /** What every statement-level function promises: the cursor stays on
      the list and never moves back, success consumes at least one token,
      and in the corrected dialect a failure has been reported and a
      success without reports holds no null placeholder. */
  predicate StmtStep(d: Dialect, toks: seq<Token>, pos: nat, r: Parsed<Stmt>) {
    && pos <= r.pos < |toks|
    && (r.Done? ==> pos < r.pos)
    && (d == Corrected && r.Panic? ==> |r.diags| >= 1)
    && (d == Corrected && r.Done? && r.diags == [] ==> WellFormedStmt(r.value))
  }

  /** `Declaration()`: a `var` declaration or a statement; on a parse error
      it synchronizes and yields the null placeholder. It always consumes
      at least one token. */
  function Declaration(d: Dialect, toks: seq<Token>, pos: nat): (r: Parsed<Option<Stmt>>)
    requires Terminated(toks) && pos < |toks| && !IsAtEnd(toks, pos)
    ensures r.Done? && pos < r.pos < |toks|
    ensures r.value.None? ==> AtBoundary(toks, r.pos)
    ensures d == Corrected && r.diags == [] ==> r.value.Some? && WellFormedStmt(r.value.value)
    decreases |toks| - pos, 2
  {
    var attempt := if Check(toks, pos, Var) then VarDeclaration(d, toks, pos + 1) else Statement(d, toks, pos);
    match attempt
    case Done(s, p, ds) => Done(Some(s), p, ds)
    case Panic(p, ds) => Done(None, Synchronize(toks, p), ds)
  }

  /** `VarDeclaration()`: a name, an optional initializer, then `;`. */
  function VarDeclaration(d: Dialect, toks: seq<Token>, pos: nat): (r: Parsed<Stmt>)
    requires Terminated(toks) && pos < |toks|
    ensures StmtStep(d, toks, pos, r)
    ensures r.Done? ==> r.value.VarStmt? && r.value.name == toks[pos] && toks[pos].kind == Identifier
    ensures r.Done? ==> (r.value.initializer.Some? <==> Check(toks, pos + 1, Equal))
  {
    var name := Consume(toks, pos, Identifier, ExpectVariableName);
    if name.Panic? then Panic(name.pos, name.diags) else VarRest(d, toks, name.pos, name.value)
  }

  /** What follows the name of a declaration: the initializer, then `;`. */
  function VarRest(d: Dialect, toks: seq<Token>, pos: nat, name: Token): (r: Parsed<Stmt>)
    requires Terminated(toks) && pos < |toks|
    ensures StmtStep(d, toks, pos, r)
    ensures r.Done? ==> r.value.VarStmt? && r.value.name == name
    ensures r.Done? ==> (r.value.initializer.Some? <==> Check(toks, pos, Equal))
  {
    var init := Initializer(d, toks, pos);
    if init.Panic? then Panic(init.pos, init.diags)
    else
      var semicolon := Consume(toks, init.pos, Semicolon, ExpectVarSemicolon);
      if semicolon.Panic? then Panic(semicolon.pos, semicolon.diags)
      else Done(VarStmt(name, init.value), semicolon.pos, [])
  }

  /** The optional `= expression` of a declaration. */
  function Initializer(d: Dialect, toks: seq<Token>, pos: nat): (r: Parsed<Option<Expr>>)
    requires Terminated(toks) && pos < |toks|
    ensures pos <= r.pos < |toks|
    ensures r.Done? ==> r.diags == [] && (r.value.Some? <==> Check(toks, pos, Equal))
    ensures r.Done? && r.value.Some? ==> WellFormedExpr(r.value.value)
    ensures r.Panic? ==> Check(toks, pos, Equal) && (d == Corrected ==> |r.diags| == 1)
  {
    if Check(toks, pos, Equal) then
      match Expression(d, toks, pos + 1)
      case Panic(q, ds) => Panic(q, ds)
      case Done(e, q, ds) => Done(Some(e), q, ds)
    else Done(None, pos, [])
  }

  /** `Statement()`: `print`, a block, or an expression statement. */
  function Statement(d: Dialect, toks: seq<Token>, pos: nat): (r: Parsed<Stmt>)
    requires Terminated(toks) && pos < |toks|
    ensures StmtStep(d, toks, pos, r)
    ensures r.Done? && Check(toks, pos, Print) ==> r.value.PrintStmt?
    ensures r.Done? && Check(toks, pos, LeftBrace) ==> r.value.BlockStmt?
    ensures r.Done? && !Check(toks, pos, Print) && !Check(toks, pos, LeftBrace) ==> r.value.ExpressionStmt?
    decreases |toks| - pos, 1
  {
    if Check(toks, pos, Print) then PrintStatement(d, toks, pos + 1)
    else if Check(toks, pos, LeftBrace) then
      match Block(d, toks, pos + 1)
      case Panic(q, ds) => Panic(q, ds)
      case Done(body, q, ds) => Done(BlockStmt(body), q, ds)
    else ExpressionStatement(d, toks, pos)
  }

  /** `Block()`: declarations up to `}` or the end, then `}` is required.
      Errors inside are recovered by the inner declarations. */
  function Block(d: Dialect, toks: seq<Token>, pos: nat): (r: Parsed<seq<Option<Stmt>>>)
    requires Terminated(toks) && pos < |toks|
    ensures pos <= r.pos < |toks|
    ensures r.Done? ==> pos < r.pos && toks[r.pos - 1].kind == RightBrace
    ensures d == Corrected && r.Panic? ==> |r.diags| >= 1
    ensures d == Corrected && r.Done? && r.diags == [] ==> WellFormedList(r.value)
    decreases |toks| - pos, 4
  {
    var items := BlockItems(d, toks, pos);
    match Consume(toks, items.pos, RightBrace, ExpectRightBrace)
    case Panic(q, ds) => Panic(q, items.diags + ds)
    case Done(_, q, _) => Done(items.value, q, items.diags)
  }

  /** The `while (!Check(RIGHT_BRACE) && !IsAtEnd())` loop of `Block()`. */
  function BlockItems(d: Dialect, toks: seq<Token>, pos: nat): (r: Parsed<seq<Option<Stmt>>>)
    requires Terminated(toks) && pos < |toks|
    ensures r.Done? && pos <= r.pos < |toks|
    ensures Check(toks, r.pos, RightBrace) || IsAtEnd(toks, r.pos)
    ensures d == Corrected && r.diags == [] ==> WellFormedList(r.value)
    decreases |toks| - pos, 3
  {
    if Check(toks, pos, RightBrace) || IsAtEnd(toks, pos) then Done([], pos, [])
    else
      var first := Declaration(d, toks, pos);
      var rest := BlockItems(d, toks, first.pos);
      if d == Corrected && first.diags + rest.diags == [] then
        WellFormedCons(first.value, rest.value);
        Done([first.value] + rest.value, rest.pos, first.diags + rest.diags)
      else Done([first.value] + rest.value, rest.pos, first.diags + rest.diags)
  }

  /** `ExpressionStatement()`: an expression, then `;`. */
  function ExpressionStatement(d: Dialect, toks: seq<Token>, pos: nat): (r: Parsed<Stmt>)
    requires Terminated(toks) && pos < |toks|
    ensures StmtStep(d, toks, pos, r)
    ensures r.Done? ==> r.value.ExpressionStmt? && toks[r.pos - 1].kind == Semicolon
  {
    match Expression(d, toks, pos)
    case Panic(q, ds) => Panic(q, ds)
    case Done(e, p, _) =>
      match Consume(toks, p, Semicolon, ExpectValueSemicolon)
      case Panic(q, ds) => Panic(q, ds)
      case Done(_, q, _) => Done(ExpressionStmt(e), q, [])
  }

  /** `PrintStatement()`: an expression, then `;`. */
  function PrintStatement(d: Dialect, toks: seq<Token>, pos: nat): (r: Parsed<Stmt>)
    requires Terminated(toks) && pos < |toks|
    ensures StmtStep(d, toks, pos, r)
    ensures r.Done? ==> r.value.PrintStmt? && toks[r.pos - 1].kind == Semicolon
  {
    match Expression(d, toks, pos)
    case Panic(q, ds) => Panic(q, ds)
    case Done(e, p, _) =>
      match Consume(toks, p, Semicolon, ExpectValueSemicolon)
      case Panic(q, ds) => Panic(q, ds)
      case Done(_, q, _) => Done(PrintStmt(e), q, [])
  }

  /** The parser's result: one entry per top-level declaration (null
      placeholders included) and the errors it reported. */
  datatype Program = Program(statements: seq<Option<Stmt>>, diags: seq<Diagnostic>)

  /** `Parse()`: declarations until the end-of-input token. Each takes at
      least one token, so there are fewer entries than tokens. */
  function Parse(d: Dialect, toks: seq<Token>): (r: Program)
    requires Terminated(toks)
    ensures |r.statements| < |toks|
    ensures d == Corrected && r.diags == [] ==> WellFormedList(r.statements)
  {
    ParseFrom(d, toks, 0)
  }

  /** The `while (!IsAtEnd())` loop of `Parse()`. */
  function ParseFrom(d: Dialect, toks: seq<Token>, pos: nat): (r: Program)
    requires Terminated(toks) && pos < |toks|
    ensures |r.statements| <= |toks| - 1 - pos
    ensures d == Corrected && r.diags == [] ==> WellFormedList(r.statements)
    decreases |toks| - pos
  {
    if IsAtEnd(toks, pos) then Program([], [])
    else
      var first := Declaration(d, toks, pos);
      var rest := ParseFrom(d, toks, first.pos);
      var prog := Program([first.value] + rest.statements, first.diags + rest.diags);
      if d == Corrected && prog.diags == [] then
        WellFormedCons(first.value, rest.statements);
        prog
      else prog
  }
}
