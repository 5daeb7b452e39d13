/** The debugging printer: an expression as a fully parenthesized prefix
    form, `(* (- 123) (group 45.67))`. It has no case for assignments and
    variables, which print as C# `null`; nested inside a larger expression
    a `null` appends nothing. */
module AstPrinter {
  import opened Wrappers
  import opened Values
  import opened Tokens
  import opened Ast

  /** `Print(expr)`: `None` stands for the `null` of `visitAssignExpr` and
      `visitVariableExpr`. */
  function Print(show: real -> string, e: Expr): (r: Option<string>)
    ensures r.None? <==> e.AssignExpr? || e.VariableExpr?
    ensures r.Some? ==> r.value == Text(show, e)
  {
    if e.AssignExpr? || e.VariableExpr? then None else Some(Text(show, e))
  }

  /** What `builder.Append(expr.Accept(this))` adds for a subexpression:
      its printed form, or nothing for `null`. */
  function Text(show: real -> string, e: Expr): string
    decreases e
  {
    match e
    case BinaryExpr(l, op, r) => "(" + op.lexeme + " " + Text(show, l) + " " + Text(show, r) + ")"
    case GroupingExpr(inner) => "(group " + Text(show, inner) + ")"
    case LiteralExpr(v) => if v == Value.Nil then "nil" else HostText(show, v)
    case UnaryExpr(op, r) => "(" + op.lexeme + " " + Text(show, r) + ")"
    case AssignExpr(_, _) => ""
    case VariableExpr(_) => ""
  }

  /** How many times `c` occurs in `s`. */
  function Occurrences(s: string, c: char): nat {
    if |s| == 0 then 0 else (if s[0] == c then 1 else 0) + Occurrences(s[1..], c)
  }

  lemma {:induction false} OccurrencesConcat(a: string, b: string, c: char)
    ensures Occurrences(a + b, c) == Occurrences(a, c) + Occurrences(b, c)
    decreases |a|
  {
    if |a| > 0 {
      assert (a + b)[1..] == a[1..] + b;
      OccurrencesConcat(a[1..], b, c);
    } else {
      assert a + b == b;
    }
  }

  /** No operator lexeme or literal text of `e` contains a parenthesis. */
  predicate PlainLeaves(show: real -> string, e: Expr)
    decreases e
  {
    match e
    case BinaryExpr(l, op, r) => NoParens(op.lexeme) && PlainLeaves(show, l) && PlainLeaves(show, r)
    case GroupingExpr(inner) => PlainLeaves(show, inner)
    case LiteralExpr(v) => v == Value.Nil || NoParens(HostText(show, v))
    case UnaryExpr(op, r) => NoParens(op.lexeme) && PlainLeaves(show, r)
    case AssignExpr(_, _) => true
    case VariableExpr(_) => true
  }

  predicate NoParens(s: string) {
    Occurrences(s, '(') == 0 && Occurrences(s, ')') == 0
  }

  /** The number of parenthesized nodes: binary, grouping and unary. */
  function Nodes(e: Expr): nat
    decreases e
  {
    match e
    case BinaryExpr(l, _, r) => 1 + Nodes(l) + Nodes(r)
    case GroupingExpr(inner) => 1 + Nodes(inner)
    case UnaryExpr(_, r) => 1 + Nodes(r)
    case _ => 0
  }

  /** Counting in the printed form of a binary node. */
  lemma BinaryCount(lexeme: string, left: string, right: string, c: char)
    ensures Occurrences("(" + lexeme + " " + left + " " + right + ")", c) ==
      Occurrences("(", c) + Occurrences(lexeme, c) + Occurrences(" ", c) + Occurrences(left, c)
      + Occurrences(" ", c) + Occurrences(right, c) + Occurrences(")", c)
  {
    OccurrencesConcat("(", lexeme, c);
    OccurrencesConcat("(" + lexeme, " ", c);
    OccurrencesConcat("(" + lexeme + " ", left, c);
    OccurrencesConcat("(" + lexeme + " " + left, " ", c);
    OccurrencesConcat("(" + lexeme + " " + left + " ", right, c);
    OccurrencesConcat("(" + lexeme + " " + left + " " + right, ")", c);
  }

  /** Counting in the printed form of a unary node. */
  lemma UnaryCount(lexeme: string, right: string, c: char)
    ensures Occurrences("(" + lexeme + " " + right + ")", c) ==
      Occurrences("(", c) + Occurrences(lexeme, c) + Occurrences(" ", c)
      + Occurrences(right, c) + Occurrences(")", c)
  {
    OccurrencesConcat("(", lexeme, c);
    OccurrencesConcat("(" + lexeme, " ", c);
    OccurrencesConcat("(" + lexeme + " ", right, c);
    OccurrencesConcat("(" + lexeme + " " + right, ")", c);
  }

  /** Counting in the printed form of a grouping. */
  lemma GroupCount(inner: string, c: char)
    ensures Occurrences("(group " + inner + ")", c) ==
      Occurrences("(group ", c) + Occurrences(inner, c) + Occurrences(")", c)
  {
    OccurrencesConcat("(group ", inner, c);
    OccurrencesConcat("(group " + inner, ")", c);
  }

  /** The parentheses of the fixed pieces of the printed forms. */
  lemma PieceCounts()
    ensures Occurrences("(", '(') == 1 && Occurrences("(", ')') == 0
    ensures Occurrences(")", '(') == 0 && Occurrences(")", ')') == 1
    ensures Occurrences(" ", '(') == 0 && Occurrences(" ", ')') == 0
    ensures Occurrences("(group ", '(') == 1 && Occurrences("(group ", ')') == 0
    ensures Occurrences("nil", '(') == 0 && Occurrences("nil", ')') == 0
  {
    assert "("[1..] == "" && ")"[1..] == "" && " "[1..] == "";
    assert "(group "[1..] == "group " && "group "[1..] == "roup " && "roup "[1..] == "oup ";
    assert "oup "[1..] == "up " && "up "[1..] == "p " && "p "[1..] == " ";
    assert "nil"[1..] == "il" && "il"[1..] == "l" && "l"[1..] == "";
  }

  /** Every parenthesized node opens one parenthesis and closes one: when
      the leaves contribute none, the printed form holds exactly one pair
      per node. */
  lemma {:induction false} TextBalanced(show: real -> string, e: Expr)
    requires PlainLeaves(show, e)
    ensures Occurrences(Text(show, e), '(') == Nodes(e)
    ensures Occurrences(Text(show, e), ')') == Nodes(e)
    decreases e
  {
    PieceCounts();
    match e
    case BinaryExpr(l, op, r) =>
      TextBalanced(show, l);
      TextBalanced(show, r);
      BinaryCount(op.lexeme, Text(show, l), Text(show, r), '(');
      BinaryCount(op.lexeme, Text(show, l), Text(show, r), ')');
    case GroupingExpr(inner) =>
      TextBalanced(show, inner);
      GroupCount(Text(show, inner), '(');
      GroupCount(Text(show, inner), ')');
    case UnaryExpr(op, r) =>
      TextBalanced(show, r);
      UnaryCount(op.lexeme, Text(show, r), '(');
      UnaryCount(op.lexeme, Text(show, r), ')');
    case LiteralExpr(v) =>
    case AssignExpr(_, _) =>
    case VariableExpr(_) =>
  }

  /** `-123` with the example's number text. */
  lemma NegatedText(show: real -> string, minus: Token)
    requires show(123.0) == "123" && minus.lexeme == "-"
    ensures Text(show, UnaryExpr(minus, LiteralExpr(Num(123.0)))) == "(- 123)"
  {
    assert Text(show, LiteralExpr(Num(123.0))) == "123";
  }

  /** `(45.67)` with the example's number text. */
  lemma GroupedText(show: real -> string)
    requires show(45.67) == "45.67"
    ensures Text(show, GroupingExpr(LiteralExpr(Num(45.67)))) == "(group 45.67)"
  {
    assert Text(show, LiteralExpr(Num(45.67))) == "45.67";
  }

  /** The printer's own example: `-123 * (45.67)` prints as
      `(* (- 123) (group 45.67))`. */
  lemma PrintExample(show: real -> string, minus: Token, star: Token)
    requires show(123.0) == "123" && show(45.67) == "45.67"
    requires minus.lexeme == "-" && star.lexeme == "*"
    ensures Print(show, BinaryExpr(UnaryExpr(minus, LiteralExpr(Num(123.0))), star, GroupingExpr(LiteralExpr(Num(45.67)))))
            == Some("(* (- 123) (group 45.67))")
  {
    var neg := UnaryExpr(minus, LiteralExpr(Num(123.0)));
    var grp := GroupingExpr(LiteralExpr(Num(45.67)));
    NegatedText(show, minus);
    GroupedText(show);
    assert Text(show, BinaryExpr(neg, star, grp)) == "(* " + "(- 123)" + " " + "(group 45.67)" + ")";
    assert "(* " + "(- 123)" + " " + "(group 45.67)" + ")" == "(* (- 123) (group 45.67))";
  }
}
