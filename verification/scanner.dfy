/** The scanner: one left-to-right pass over the source that emits tokens,
    counts lines and reports (never throws) lexical errors. The C# class
    keeps `start`, `current` and `line` in mutable fields; here each step
    takes them as arguments and returns the new cursor and line. */
module Scanner {
  import opened Wrappers
  import opened Strings
  import opened Values
  import opened Tokens
  import opened Reporting
  import opened Dialects

  /** The reserved words and their token types. */
  const Keywords: map<string, TokenType> := map[
    "and" := And, "class" := Class, "else" := Else, "false" := False,
    "for" := For, "fun" := Fun, "if" := If, "nil" := TokenType.Nil,
    "or" := Or, "print" := Print, "return" := Return, "super" := Super,
    "this" := This, "true" := True, "var" := Var, "while" := While]

  predicate IsAlpha(c: char) {
    ('a' <= c <= 'z') || ('A' <= c <= 'Z') || c == '_'
  }

  predicate IsAlphaNumeric(c: char) {
    IsAlpha(c) || IsDigit(c)
  }

  /** Blanks the scanner skips; only the newline advances the line count. */
  predicate IsWhitespace(c: char) {
    c == ' ' || c == '\r' || c == '\t' || c == '\n'
  }

  predicate IsNotQuote(c: char) {
    c != '"'
  }

  predicate IsNotNewline(c: char) {
    c != '\n'
  }

  /** The number of newline characters in `s`. */
  function NewlinesIn(s: string): nat {
    if |s| == 0 then 0 else (if s[0] == '\n' then 1 else 0) + NewlinesIn(s[1..])
  }

  lemma {:induction false} NewlinesConcat(a: string, b: string)
    ensures NewlinesIn(a + b) == NewlinesIn(a) + NewlinesIn(b)
  {
    if |a| > 0 {
      assert (a + b)[1..] == a[1..] + b;
      NewlinesConcat(a[1..], b);
    } else {
      assert a + b == b;
    }
  }

  lemma {:induction false} NoNewlines(s: string)
    requires forall k :: 0 <= k < |s| ==> s[k] != '\n'
    ensures NewlinesIn(s) == 0
  {
    if |s| > 0 {
      NoNewlines(s[1..]);
    }
  }

  /** `Peek()`: the character under the cursor, NUL past the end. */
  function Peek(src: string, current: nat): char {
    if current < |src| then src[current] else '\0'
  }

  /** `PeekNext()`: the character after the cursor, NUL past the end. */
  function PeekNext(src: string, current: nat): char {
    if current + 1 < |src| then src[current + 1] else '\0'
  }

  /** `Match(expected)` as written: it tells whether the character under the
      cursor is `expected` but never advances the cursor. Callers advance
      explicitly in the corrected dialect. */
  function Match(src: string, current: nat, expected: char): bool {
    current < |src| && src[current] == expected
  }

  /** Where a loop `while (p(Peek())) Advance();` started at `i` stops: the
      end of the longest run of characters satisfying `p`. */
  function SpanEnd(src: string, i: nat, p: char -> bool): (j: nat)
    requires i <= |src|
    ensures i <= j <= |src|
    ensures forall k :: i <= k < j ==> p(src[k])
    ensures j < |src| ==> !p(src[j])
    decreases |src| - i
  {
    if i < |src| && p(src[i]) then SpanEnd(src, i + 1, p) else i
  }

  /** The end of a maximal run is determined by the run itself. */
  lemma SpanEndUnique(src: string, i: nat, p: char -> bool, j: nat)
    requires i <= j <= |src|
    requires forall k :: i <= k < j ==> p(src[k])
    requires j < |src| ==> !p(src[j])
    ensures SpanEnd(src, i, p) == j
    decreases j - i
  {
    if i < j {
      SpanEndUnique(src, i + 1, p, j);
    }
  }

  /** The text of a number literal: `digits ('.' digits)?`. */
  predicate IsNumberLexeme(s: string) {
    && |s| > 0
    && IsDigit(s[0])
    && var k := SpanEnd(s, 0, IsDigit);
       k == |s| || (s[k] == '.' && k + 1 < |s| && AllDigits(s[k + 1..]))
  }

  /** The exact value a number lexeme denotes (`double.Parse` without its
      rounding to the nearest double). */
  function NumberValue(s: string): real
    requires IsNumberLexeme(s)
  {
    var k := SpanEnd(s, 0, IsDigit);
    assert AllDigits(s[..k]);
    DigitsValue(s[..k]) as real
      + (if k == |s| then 0.0 else DigitsValue(s[k + 1..]) as real / Pow10(|s| - k - 1) as real)
  }

  /** The token type of an identifier-shaped lexeme: its keyword, if any. */
  function KeywordOrIdentifier(text: string): (kind: TokenType)
    ensures text in Keywords ==> kind == Keywords[text]
    ensures text !in Keywords ==> kind == Identifier
    ensures kind != Eof
  {
    if text in Keywords then Keywords[text] else Identifier
  }

  /** What one call of `scanToken` leaves behind: the new cursor, the new
      line, the tokens it added and the errors it reported. */
  datatype Lexed = Lexed(next: nat, line: nat, emitted: seq<Token>, diags: seq<Diagnostic>)

  /** `AddToken(type, literal)`: the lexeme is `source[start..current)`. */
  function AddToken(src: string, start: nat, current: nat, line: nat, kind: TokenType, literal: Value): (r: Lexed)
    requires start <= current <= |src|
    ensures r.next == current && r.line == line && r.diags == []
    ensures r.emitted == [Token(kind, src[start..current], literal, line)]
  {
    Lexed(current, line, [Token(kind, SubStartEnd(src, start, current).value, literal, line)], [])
  }

  /** `Identifier()`: the longest alphanumeric run, classified against the
      keyword table. */
  function ScanIdentifier(src: string, start: nat, line: nat): (r: Lexed)
    requires start < |src| && IsAlpha(src[start])
    ensures start < r.next <= |src|
    ensures forall k :: start <= k < r.next ==> IsAlphaNumeric(src[k])
    ensures r.next == |src| || !IsAlphaNumeric(src[r.next])
    ensures r.emitted == [Token(KeywordOrIdentifier(src[start..r.next]), src[start..r.next], Value.Nil, line)]
    ensures r.line == line && r.diags == [] && NewlinesIn(src[start..r.next]) == 0
  {
    var current := SpanEnd(src, start + 1, IsAlphaNumeric);
    NoNewlines(src[start..current]);
    var text := SubStartEnd(src, start, current).value;
    AddToken(src, start, current, line, KeywordOrIdentifier(text), Value.Nil)
  }

  /** `Number()`: digits, then a fraction only when the `.` is followed by a
      digit; the result is the longest number lexeme at `start`. */
  function ScanNumber(src: string, start: nat, line: nat): (r: Lexed)
    requires start < |src| && IsDigit(src[start])
    ensures start < r.next <= |src|
    ensures IsNumberLexeme(src[start..r.next])
    ensures forall m :: r.next < m <= |src| ==> !IsNumberLexeme(src[start..m])
    ensures r.emitted == [Token(Number, src[start..r.next], Num(NumberValue(src[start..r.next])), line)]
    ensures r.line == line && r.diags == [] && NewlinesIn(src[start..r.next]) == 0
  {
    var intEnd := SpanEnd(src, start + 1, IsDigit);
    var current :=
      if Peek(src, intEnd) == '.' && IsDigit(PeekNext(src, intEnd))
      then SpanEnd(src, intEnd + 1, IsDigit)
      else intEnd;
    NumberLexemeLongest(src, start, intEnd, current);
    NoNewlines(src[start..current]);
    var text := SubStartEnd(src, start, current).value;
    AddToken(src, start, current, line, Number, Num(NumberValue(text)))
  }

  /** The lexeme `ScanNumber` cuts is a number lexeme and no longer prefix
      of the rest of the source is one. */
  lemma NumberLexemeLongest(src: string, start: nat, intEnd: nat, current: nat)
    requires start < |src| && IsDigit(src[start])
    requires intEnd == SpanEnd(src, start + 1, IsDigit)
    requires current ==
      if Peek(src, intEnd) == '.' && IsDigit(PeekNext(src, intEnd))
      then SpanEnd(src, intEnd + 1, IsDigit)
      else intEnd
    ensures start < current <= |src|
    ensures IsNumberLexeme(src[start..current])
    ensures forall m :: current < m <= |src| ==> !IsNumberLexeme(src[start..m])
  {
    var s := src[start..current];
    SpanEndUnique(s, 0, IsDigit, intEnd - start);
    if current != intEnd {
      assert s[intEnd - start + 1..] == src[intEnd + 1..current];
    }
    forall m | current < m <= |src|
      ensures !IsNumberLexeme(src[start..m])
    {
      LongerNotNumber(src, start, intEnd, current, m);
    }
  }

  /** A prefix of the source that runs past the end `ScanNumber` chose is
      no number lexeme: it either continues after the integer part with
      something other than a fraction, or its fraction holds a non-digit. */
  lemma LongerNotNumber(src: string, start: nat, intEnd: nat, current: nat, m: nat)
    requires start < |src| && IsDigit(src[start])
    requires intEnd == SpanEnd(src, start + 1, IsDigit)
    requires current ==
      if Peek(src, intEnd) == '.' && IsDigit(PeekNext(src, intEnd))
      then SpanEnd(src, intEnd + 1, IsDigit)
      else intEnd
    requires current < m <= |src|
    ensures !IsNumberLexeme(src[start..m])
  {
    var t := src[start..m];
    var k := intEnd - start;
    SpanEndUnique(t, 0, IsDigit, k);
    assert t[k] == src[intEnd];
    if current == intEnd {
      if t[k] == '.' && k + 1 < |t| {
        assert t[k + 1..][0] == src[intEnd + 1];
        assert !IsDigit(t[k + 1..][0]);
      }
    } else {
      assert t[k + 1..][current - intEnd - 1] == src[current];
      assert !IsDigit(t[k + 1..][current - intEnd - 1]);
    }
  }

  /** `StringLiteral()`: everything up to the next `"`, newlines included;
      without a closing quote it reports and adds nothing. */
  function ScanString(src: string, start: nat, line: nat): (r: Lexed)
    requires start < |src| && src[start] == '"'
    ensures start < r.next <= |src|
    ensures r.line == line + NewlinesIn(src[start..r.next])
    ensures r.emitted == [] <==> r.diags != []
    ensures r.diags != [] ==>
      && r.next == |src|
      && r.diags == [ErrorAtLine(r.line, "Unterminated string.")]
      && forall k :: start < k < |src| ==> src[k] != '"'
    ensures r.emitted != [] ==>
      && start + 2 <= r.next
      && src[r.next - 1] == '"'
      && r.emitted == [Token(String, src[start..r.next], Str(src[start + 1..r.next - 1]), r.line)]
      && forall k :: start < k < r.next - 1 ==> src[k] != '"'
  {
    var close := SpanEnd(src, start + 1, IsNotQuote);
    var endLine := line + NewlinesIn(src[start + 1..close]);
    assert src[start..close] == [src[start]] + src[start + 1..close];
    NewlinesConcat([src[start]], src[start + 1..close]);
    if close >= |src| then
      Lexed(close, endLine, [], [ErrorAtLine(endLine, "Unterminated string.")])
    else
      assert src[start..close + 1] == src[start..close] + [src[close]];
      NewlinesConcat(src[start..close], [src[close]]);
      var value := SubStartEnd(src, start + 1, close).value;
      AddToken(src, start, close + 1, endLine, String, Str(value))
  }

  /** The operators `!`, `=`, `<`, `>` with their `=`-suffixed forms. As
      written the `=` is recognised but not consumed. */
  function ScanOperator(d: Dialect, src: string, start: nat, line: nat, single: TokenType, double: TokenType): (r: Lexed)
    requires start < |src| && src[start] in BareOperators && single != double
    ensures r.line == line && r.diags == [] && |r.emitted| == 1
    ensures start < r.next <= |src| && NewlinesIn(src[start..r.next]) == 0
    ensures Match(src, start + 1, '=') <==> r.emitted[0].kind == double
    ensures d == AsWritten || !Match(src, start + 1, '=') ==> r.next == start + 1
    ensures d == Corrected && Match(src, start + 1, '=') ==> r.next == start + 2
    ensures r.emitted == [Token(r.emitted[0].kind, src[start..r.next], Value.Nil, line)]
    ensures r.emitted[0].kind == single || r.emitted[0].kind == double
  {
    var matched := Match(src, start + 1, '=');
    var current := if matched && d == Corrected then start + 2 else start + 1;
    NoNewlines(src[start..current]);
    AddToken(src, start, current, line, if matched then double else single, Value.Nil)
  }

  /** A `/` is division unless a second `/` starts a comment running to the
      end of the line (the newline itself is left for the next step). */
  function ScanSlash(d: Dialect, src: string, start: nat, line: nat): (r: Lexed)
    requires start < |src| && src[start] == '/'
    ensures start < r.next <= |src| && r.line == line && r.diags == []
    ensures NewlinesIn(src[start..r.next]) == 0
    ensures Match(src, start + 1, '/') ==> r.emitted == [] && (r.next == |src| || src[r.next] == '\n')
    ensures !Match(src, start + 1, '/') ==> r.emitted == [Token(Slash, "/", Value.Nil, line)]
  {
    if Match(src, start + 1, '/') then
      var from := if d == Corrected then start + 2 else start + 1;
      var current := SpanEnd(src, from, IsNotNewline);
      NoNewlines(src[start..current]);
      Lexed(current, line, [], [])
    else
      assert src[start..start + 1] == "/";
      AddToken(src, start, start + 1, line, Slash, Value.Nil)
  }

  /** The characters that are a token on their own. */
  const SingleCharTokens: map<char, TokenType> := map[
    '(' := LeftParen, ')' := RightParen, '{' := LeftBrace, '}' := RightBrace,
    ',' := Comma, '.' := Dot, '-' := Minus, '+' := Plus, ';' := Semicolon, '*' := Star]

  /** The operators that take an optional `=`: the bare and the suffixed type. */
  const BareOperators: map<char, TokenType> := map['!' := Bang, '=' := Equal, '<' := Less, '>' := Greater]
  const EqualOperators: map<char, TokenType> :=
    map['!' := BangEqual, '=' := EqualEqual, '<' := LessEqual, '>' := GreaterEqual]

  /** The facts about the three tables that `ScanToken` relies on. */
  lemma TableFacts()
    ensures forall c :: c in SingleCharTokens ==> SingleCharTokens[c] != Eof && !IsWhitespace(c) && c !in BareOperators
    ensures forall c :: c in BareOperators ==>
      c in EqualOperators && BareOperators[c] != EqualOperators[c] && !IsWhitespace(c)
      && BareOperators[c] != Eof && EqualOperators[c] != Eof
  {
    SingleCharFacts();
    OperatorFacts();
  }

  lemma SingleCharFacts()
    ensures forall c :: c in SingleCharTokens ==> SingleCharTokens[c] != Eof && !IsWhitespace(c) && c !in BareOperators
  {
  }

  lemma OperatorFacts()
    ensures forall c :: c in BareOperators ==>
      c in EqualOperators && BareOperators[c] != EqualOperators[c] && !IsWhitespace(c)
      && BareOperators[c] != Eof && EqualOperators[c] != Eof
  {
  }

  lemma NewlinesInOne(src: string, start: nat)
    requires start < |src|
    ensures NewlinesIn(src[start..start + 1]) == if src[start] == '\n' then 1 else 0
  {
    assert src[start..start + 1][1..] == [];
  }

  /** `scanToken()`: one step of the scanner from `start` (which is
      `current` on entry). The `switch` is written as lookups in the tables
      above followed by the remaining cases in source order. */
  function ScanToken(d: Dialect, src: string, start: nat, line: nat): (r: Lexed)
    requires start < |src|
    ensures start < r.next <= |src|
    ensures r.line == line + NewlinesIn(src[start..r.next])
    ensures |r.emitted| <= 1
    ensures forall t <- r.emitted :: t.kind != Eof && t.lexeme == src[start..r.next] && t.line == r.line
    ensures IsWhitespace(src[start]) ==> r.next == start + 1 && r.emitted == [] && r.diags == []
    ensures d == AsWritten && src[start] in BareOperators ==> r.next == start + 1
  {
    var c := src[start];
    NewlinesInOne(src, start);
    TableFacts();
    if c in SingleCharTokens then
      AddToken(src, start, start + 1, line, SingleCharTokens[c], Value.Nil)
    else if c in BareOperators then
      ScanOperator(d, src, start, line, BareOperators[c], EqualOperators[c])
    else if c == '/' then
      ScanSlash(d, src, start, line)
    else if IsWhitespace(c) then
      Lexed(start + 1, if c == '\n' then line + 1 else line, [], [])
    else if c == '"' then
      ScanString(src, start, line)
    else if IsDigit(c) then
      ScanNumber(src, start, line)
    else if IsAlpha(c) then
      ScanIdentifier(src, start, line)
    else
      Lexed(start + 1, line, [], [ErrorAtLine(line, "Unexpected character.")])
  }

  /** The `while (!IsAtEnd())` loop of `ScanTokens` from `current` on. */
  function ScanFrom(d: Dialect, src: string, current: nat, line: nat): (r: Lexed)
    requires current <= |src|
    ensures r.next == |src|
    ensures r.line == line + NewlinesIn(src[current..])
    ensures forall t <- r.emitted :: t.kind != Eof && line <= t.line <= r.line
    decreases |src| - current
  {
    if current >= |src| then Lexed(current, line, [], [])
    else
      var step := ScanToken(d, src, current, line);
      var rest := ScanFrom(d, src, step.next, step.line);
      assert src[current..] == src[current..step.next] + src[step.next..];
      NewlinesConcat(src[current..step.next], src[step.next..]);
      Lexed(rest.next, rest.line, step.emitted + rest.emitted, step.diags + rest.diags)
  }

  /** The scanner's result: the token list and the errors it reported. */
  datatype Scanned = Scanned(tokens: seq<Token>, diags: seq<Diagnostic>)

  /** `ScanTokens()`: scan the whole source, then append exactly one
      end-of-input token with an empty lexeme on the last line. */
  function ScanTokens(d: Dialect, src: string): (r: Scanned)
    ensures |r.tokens| > 0
    ensures r.tokens[|r.tokens| - 1] == Token(Eof, "", Value.Nil, 1 + NewlinesIn(src))
    ensures forall i :: 0 <= i < |r.tokens| - 1 ==> r.tokens[i].kind != Eof
    ensures forall t <- r.tokens :: 1 <= t.line <= 1 + NewlinesIn(src)
  {
    var scanned := ScanFrom(d, src, 0, 1);
    assert src[0..] == src;
    Scanned(scanned.emitted + [Token(Eof, "", Value.Nil, scanned.line)], scanned.diags)
  }
}
