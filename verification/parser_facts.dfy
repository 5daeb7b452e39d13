/** Properties of the parser that relate several of its functions: how a
    lone literal climbs the precedence levels, and what becomes of an
    assignment to something that is not a variable, `1 = 2;`. As written
    the parse error is thrown but never reported, so the statement becomes
    a null placeholder in a program that reports no error at all. */
module ParserFacts {
  import opened Wrappers
  import opened Values
  import opened Tokens
  import opened Ast
  import opened Reporting
  import opened Dialects
  import opened Parser

  /** The operators of a level and of every tighter level. */
  function OperatorsFrom(l: Level): (ops: set<TokenType>)
    ensures Operators(l) <= ops <= BinaryOperators
    decreases LevelRank(l)
  {
    match l
    case FactorLevel => Operators(FactorLevel)
    case TermLevel => Operators(TermLevel) + OperatorsFrom(FactorLevel)
    case ComparisonLevel => Operators(ComparisonLevel) + OperatorsFrom(TermLevel)
    case EqualityLevel => Operators(EqualityLevel) + OperatorsFrom(ComparisonLevel)
  }

  /** A number followed by a token that no level from `l` down matches
      parses at level `l` as that number's literal alone. */
  lemma {:induction false} NumberAlone(d: Dialect, l: Level, toks: seq<Token>, pos: nat)
    requires Terminated(toks) && pos + 1 < |toks|
    requires toks[pos].kind == Number && toks[pos + 1].kind !in OperatorsFrom(l)
    ensures BinaryLevel(d, l, toks, pos) == Done(LiteralExpr(toks[pos].literal), pos + 1, [])
    decreases LevelRank(l)
  {
    var lit := LiteralExpr(toks[pos].literal);
    match l {
      case FactorLevel =>
        assert Unary(d, toks, pos) == Done(lit, pos + 1, []);
      case TermLevel => NumberAlone(d, FactorLevel, toks, pos);
      case ComparisonLevel => NumberAlone(d, TermLevel, toks, pos);
      case EqualityLevel => NumberAlone(d, ComparisonLevel, toks, pos);
    }
    assert Operand(d, l, toks, pos) == Done(lit, pos + 1, []);
    assert !MatchAny(toks, pos + 1, Operators(l));
  }

  /** The token kinds of `n op n op n` followed by a token no term or
      factor operator matches. */
  predicate ThreeNumbers(toks: seq<Token>, op1: TokenType, op2: TokenType) {
    && Terminated(toks) && |toks| > 6
    && toks[0].kind == Number && toks[1].kind == op1 && toks[2].kind == Number
    && toks[3].kind == op2 && toks[4].kind == Number && toks[5].kind !in OperatorsFrom(TermLevel)
  }

  /** One round of a level's operator loop: an operator of the level and
      an operand wrap the tree so far, and the loop goes on after them. */
  lemma TailRound(d: Dialect, l: Level, toks: seq<Token>, pos: nat, left: Expr, right: Expr, q: nat)
    requires Terminated(toks) && pos < |toks| && WellFormedExpr(left) && Layered(left, LevelBinding(l))
    requires MatchAny(toks, pos, Operators(l))
    requires Operand(d, l, toks, pos + 1) == Done(right, q, [])
    ensures BinaryTail(d, l, toks, pos, left) == BinaryTail(d, l, toks, q, BinaryExpr(left, toks[pos], right))
  {
  }

  /** The loop of a level ends where no operator of the level follows. */
  lemma TailEnd(d: Dialect, l: Level, toks: seq<Token>, pos: nat, left: Expr)
    requires Terminated(toks) && pos < |toks| && WellFormedExpr(left) && Layered(left, LevelBinding(l))
    requires !MatchAny(toks, pos, Operators(l))
    ensures BinaryTail(d, l, toks, pos, left) == Done(left, pos, [])
  {
  }

  /** A level is its operand followed by its operator loop. */
  lemma LevelOfOperand(d: Dialect, l: Level, toks: seq<Token>, pos: nat, left: Expr, p: nat)
    requires Terminated(toks) && pos < |toks|
    requires Operand(d, l, toks, pos) == Done(left, p, [])
    ensures BinaryLevel(d, l, toks, pos) == BinaryTail(d, l, toks, p, left)
  {
  }

  /** `1 - 2 - 3` groups to the left: `(1 - 2) - 3`. */
  lemma SubtractionGroupsLeft(d: Dialect, toks: seq<Token>)
    requires ThreeNumbers(toks, Minus, Minus)
    ensures BinaryLevel(d, TermLevel, toks, 0) == Done(
      BinaryExpr(BinaryExpr(LiteralExpr(toks[0].literal), toks[1], LiteralExpr(toks[2].literal)),
                 toks[3], LiteralExpr(toks[4].literal)), 5, [])
  {
    var one := LiteralExpr(toks[0].literal);
    var two := LiteralExpr(toks[2].literal);
    var three := LiteralExpr(toks[4].literal);
    var first := BinaryExpr(one, toks[1], two);
    var both := BinaryExpr(first, toks[3], three);
    assert Operand(d, TermLevel, toks, 0) == Done(one, 1, []) by {
      assert OperatorsFrom(FactorLevel) == {Slash, Star};
      NumberAlone(d, FactorLevel, toks, 0);
    }
    assert Operand(d, TermLevel, toks, 2) == Done(two, 3, []) by {
      assert OperatorsFrom(FactorLevel) == {Slash, Star};
      NumberAlone(d, FactorLevel, toks, 2);
    }
    assert Operand(d, TermLevel, toks, 4) == Done(three, 5, []) by {
      assert OperatorsFrom(FactorLevel) == {Slash, Star};
      NumberAlone(d, FactorLevel, toks, 4);
    }
    assert !MatchAny(toks, 5, Operators(TermLevel)) by {
      assert OperatorsFrom(TermLevel) == {Minus, Plus, Slash, Star};
    }
    LevelOfOperand(d, TermLevel, toks, 0, one, 1);
    TailRound(d, TermLevel, toks, 1, one, two, 3);
    TailRound(d, TermLevel, toks, 3, first, three, 5);
    TailEnd(d, TermLevel, toks, 5, both);
  }

  /** In `1 + 2 * 3`, the right operand of `+` is the whole product. */
  lemma ProductOperand(d: Dialect, toks: seq<Token>)
    requires ThreeNumbers(toks, Plus, Star)
    ensures Operand(d, TermLevel, toks, 2) == Done(
      BinaryExpr(LiteralExpr(toks[2].literal), toks[3], LiteralExpr(toks[4].literal)), 5, [])
  {
    var two := LiteralExpr(toks[2].literal);
    var three := LiteralExpr(toks[4].literal);
    assert Operand(d, FactorLevel, toks, 2) == Done(two, 3, []) by {
      assert Unary(d, toks, 2) == Done(two, 3, []);
    }
    assert Operand(d, FactorLevel, toks, 4) == Done(three, 5, []) by {
      assert Unary(d, toks, 4) == Done(three, 5, []);
    }
    assert !MatchAny(toks, 5, Operators(FactorLevel)) by {
      assert OperatorsFrom(TermLevel) == {Minus, Plus, Slash, Star};
    }
    LevelOfOperand(d, FactorLevel, toks, 2, two, 3);
    TailRound(d, FactorLevel, toks, 3, two, three, 5);
    TailEnd(d, FactorLevel, toks, 5, BinaryExpr(two, toks[3], three));
  }

  /** `1 + 2 * 3` binds the product first: `1 + (2 * 3)`. */
  lemma ProductBindsTighter(d: Dialect, toks: seq<Token>)
    requires ThreeNumbers(toks, Plus, Star)
    ensures BinaryLevel(d, TermLevel, toks, 0) == Done(
      BinaryExpr(LiteralExpr(toks[0].literal), toks[1],
                 BinaryExpr(LiteralExpr(toks[2].literal), toks[3], LiteralExpr(toks[4].literal))), 5, [])
  {
    var one := LiteralExpr(toks[0].literal);
    var product := BinaryExpr(LiteralExpr(toks[2].literal), toks[3], LiteralExpr(toks[4].literal));
    assert Operand(d, TermLevel, toks, 0) == Done(one, 1, []) by {
      assert OperatorsFrom(FactorLevel) == {Slash, Star};
      NumberAlone(d, FactorLevel, toks, 0);
    }
    assert !MatchAny(toks, 5, Operators(TermLevel)) by {
      assert OperatorsFrom(TermLevel) == {Minus, Plus, Slash, Star};
    }
    ProductOperand(d, toks);
    LevelOfOperand(d, TermLevel, toks, 0, one, 1);
    TailRound(d, TermLevel, toks, 1, one, product, 5);
    TailEnd(d, TermLevel, toks, 5, BinaryExpr(one, toks[1], product));
  }

  /** The token kinds of `1 = 2;`: a number, `=`, a number, `;`, end. */
  predicate LiteralAssignment(toks: seq<Token>) {
    && |toks| == 5
    && toks[0].kind == Number && toks[1].kind == Equal && toks[2].kind == Number
    && toks[3].kind == Semicolon && toks[4].kind == Eof
  }

  /** `Assignment()` on `1 = 2;`: the value parses, then the literal
      target is rejected; only the corrected dialect reports it. */
  lemma AssignmentToLiteral(d: Dialect, toks: seq<Token>)
    requires LiteralAssignment(toks)
    ensures Assignment(d, toks, 0) ==
      Panic(3, if d == Corrected then [ErrorAt(toks[1], InvalidTarget)] else [])
  {
    var one := LiteralExpr(toks[0].literal);
    var two := LiteralExpr(toks[2].literal);
    assert BinaryLevel(d, EqualityLevel, toks, 0) == Done(one, 1, []) by {
      NumberAlone(d, EqualityLevel, toks, 0);
    }
    assert Assignment(d, toks, 2) == Done(two, 3, []) by {
      NumberAlone(d, EqualityLevel, toks, 2);
      AssignmentLeaf(d, toks, 2, two);
    }
    AssignmentInvalidTarget(d, toks, 0, one, 1, two, 3);
  }

  /** `Declaration()` on `1 = 2;`: the parse error is caught, recovery
      skips to the end, and the declaration is the null placeholder. */
  lemma DeclareLiteralAssignment(d: Dialect, toks: seq<Token>)
    requires LiteralAssignment(toks)
    ensures Declaration(d, toks, 0) ==
      Done(None, 4, if d == Corrected then [ErrorAt(toks[1], InvalidTarget)] else [])
  {
    AssignmentToLiteral(d, toks);
    assert Expression(d, toks, 0) == Assignment(d, toks, 0);
    assert Statement(d, toks, 0) == ExpressionStatement(d, toks, 0);
    assert Synchronize(toks, 3) == 4;
  }

  /** Parsing `1 = 2;` yields one null placeholder. As written nothing is
      reported; corrected, the invalid target is. */
  lemma ParseLiteralAssignment(d: Dialect, toks: seq<Token>)
    requires LiteralAssignment(toks)
    ensures Parse(d, toks).statements == [None]
    ensures d == AsWritten ==> Parse(d, toks).diags == []
    ensures d == Corrected ==> Parse(d, toks).diags == [ErrorAt(toks[1], InvalidTarget)]
  {
    DeclareLiteralAssignment(d, toks);
    assert ParseFrom(d, toks, 4) == Program([], []);
  }

  /** A variable followed by a token that no level from `l` down matches
      parses at level `l` as that variable alone. */
  lemma {:induction false} VariableAlone(d: Dialect, l: Level, toks: seq<Token>, pos: nat)
    requires Terminated(toks) && pos + 1 < |toks|
    requires toks[pos].kind == Identifier && toks[pos + 1].kind !in OperatorsFrom(l)
    ensures BinaryLevel(d, l, toks, pos) == Done(VariableExpr(toks[pos]), pos + 1, [])
    decreases LevelRank(l)
  {
    var v := VariableExpr(toks[pos]);
    match l {
      case FactorLevel =>
        assert Unary(d, toks, pos) == Done(v, pos + 1, []);
      case TermLevel => VariableAlone(d, FactorLevel, toks, pos);
      case ComparisonLevel => VariableAlone(d, TermLevel, toks, pos);
      case EqualityLevel => VariableAlone(d, ComparisonLevel, toks, pos);
    }
    assert Operand(d, l, toks, pos) == Done(v, pos + 1, []);
    assert !MatchAny(toks, pos + 1, Operators(l));
  }

  /** The token kinds of `a = b = 1;`. */
  predicate ChainedAssignment(toks: seq<Token>) {
    && Terminated(toks) && |toks| > 6
    && toks[0].kind == Identifier && toks[1].kind == Equal && toks[2].kind == Identifier
    && toks[3].kind == Equal && toks[4].kind == Number && toks[5].kind == Semicolon
  }

  /** `Assignment()` when no `=` follows the parsed operand. */
  lemma AssignmentLeaf(d: Dialect, toks: seq<Token>, p: nat, e: Expr)
    requires Terminated(toks) && p + 1 < |toks|
    requires BinaryLevel(d, EqualityLevel, toks, p) == Done(e, p + 1, []) && toks[p + 1].kind != Equal
    ensures Assignment(d, toks, p) == Done(e, p + 1, [])
  {
  }

  /** `Assignment()` on a variable, `=` and a value that parses. */
  lemma AssignmentStep(d: Dialect, toks: seq<Token>, p: nat, value: Expr, q: nat)
    requires Terminated(toks) && p + 2 < |toks|
    requires toks[p].kind == Identifier && toks[p + 1].kind == Equal
    requires Assignment(d, toks, p + 2) == Done(value, q, [])
    ensures Assignment(d, toks, p) == Done(AssignExpr(toks[p], value), q, [])
  {
    var target := VariableExpr(toks[p]);
    assert BinaryLevel(d, EqualityLevel, toks, p) == Done(target, p + 1, []) by {
      assert toks[p + 1].kind !in BinaryOperators;
      VariableAlone(d, EqualityLevel, toks, p);
    }
    AssignmentToVariable(d, toks, p, target, p + 1, value, q);
  }

  /** The target rule of `Assignment()` for a variable: when it is
      followed by `=` and a value that parses, the result is an assignment
      to its name, ending where the value ends. */
  lemma AssignmentToVariable(d: Dialect, toks: seq<Token>, pos: nat, t: Expr, p: nat, v: Expr, q: nat)
    requires Terminated(toks) && pos < |toks|
    requires BinaryLevel(d, EqualityLevel, toks, pos) == Done(t, p, [])
    requires t.VariableExpr? && Check(toks, p, Equal)
    requires Assignment(d, toks, p + 1) == Done(v, q, [])
    ensures Assignment(d, toks, pos) == Done(AssignExpr(t.name, v), q, [])
  {
  }

  /** The target rule of `Assignment()` for every other target: once the
      value after `=` has parsed, it throws at the end of the value, and
      "Invalid assignment target." at the `=` is reported only when
      corrected. */
  lemma AssignmentInvalidTarget(d: Dialect, toks: seq<Token>, pos: nat, t: Expr, p: nat, v: Expr, q: nat)
    requires Terminated(toks) && pos < |toks|
    requires BinaryLevel(d, EqualityLevel, toks, pos) == Done(t, p, [])
    requires !t.VariableExpr? && Check(toks, p, Equal)
    requires Assignment(d, toks, p + 1) == Done(v, q, [])
    ensures Assignment(d, toks, pos) == Panic(q, if d == Corrected then [ErrorAt(toks[p], InvalidTarget)] else [])
  {
  }

  /** Assignment groups to the right: `a = b = 1` is `a = (b = 1)`. */
  lemma AssignmentGroupsRight(d: Dialect, toks: seq<Token>)
    requires ChainedAssignment(toks)
    ensures Assignment(d, toks, 0) ==
      Done(AssignExpr(toks[0], AssignExpr(toks[2], LiteralExpr(toks[4].literal))), 5, [])
  {
    var one := LiteralExpr(toks[4].literal);
    NumberAlone(d, EqualityLevel, toks, 4);
    AssignmentLeaf(d, toks, 4, one);
    AssignmentStep(d, toks, 2, one, 5);
    AssignmentStep(d, toks, 0, AssignExpr(toks[2], one), 5);
  }

  /** `false`, `true` and `nil` are literals of their own. */
  lemma KeywordLiterals(d: Dialect, toks: seq<Token>, pos: nat)
    requires Terminated(toks) && pos < |toks|
    ensures Check(toks, pos, False) ==> Primary(d, toks, pos) == Done(LiteralExpr(Bool(false)), pos + 1, [])
    ensures Check(toks, pos, True) ==> Primary(d, toks, pos) == Done(LiteralExpr(Bool(true)), pos + 1, [])
    ensures Check(toks, pos, TokenType.Nil) ==> Primary(d, toks, pos) == Done(LiteralExpr(Value.Nil), pos + 1, [])
  {
  }

  /** `Primary()` on `(`, an expression that parses, and `)`. */
  lemma PrimaryGroup(d: Dialect, toks: seq<Token>, pos: nat, inner: Expr, q: nat)
    requires Terminated(toks) && pos < q < |toks|
    requires toks[pos].kind == LeftParen && toks[q].kind == RightParen
    requires Expression(d, toks, pos + 1) == Done(inner, q, [])
    ensures Primary(d, toks, pos) == Done(GroupingExpr(inner), q + 1, [])
  {
    assert Check(toks, pos, LeftParen) && !Check(toks, pos, Identifier);
    assert !Check(toks, pos, False) && !Check(toks, pos, True) && !Check(toks, pos, TokenType.Nil);
    assert !MatchAny(toks, pos, {Number, String});
    assert Consume(toks, q, RightParen, ExpectRightParen) == Done(toks[q], q + 1, []);
  }

  /** `( n )` is a grouping around the number's literal. */
  lemma GroupedNumber(d: Dialect, toks: seq<Token>, pos: nat)
    requires Terminated(toks) && pos + 3 < |toks|
    requires toks[pos].kind == LeftParen && toks[pos + 1].kind == Number && toks[pos + 2].kind == RightParen
    ensures Primary(d, toks, pos) == Done(GroupingExpr(LiteralExpr(toks[pos + 1].literal)), pos + 3, [])
  {
    var one := LiteralExpr(toks[pos + 1].literal);
    NumberAlone(d, EqualityLevel, toks, pos + 1);
    AssignmentLeaf(d, toks, pos + 1, one);
    PrimaryGroup(d, toks, pos, one, pos + 2);
  }
}
