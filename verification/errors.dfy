/** The error values of the interpreter (`RuntimeException` and the .NET
    exceptions that escape it) and the diagnostic formatting of `Lox`. */
module Failures {
  import opened Tokens

  /** A `RuntimeException`: the offending token and the message. */
  datatype RuntimeError = RuntimeError(token: Token, message: string)

  /** Host exceptions that `Interpret` does not catch, so they end the
      process: `Dictionary.Add` on an existing key (ArgumentException),
      executing a null statement (NullReferenceException), and a binary
      operator the evaluator's switch lacks (NotImplementedException). */
  datatype HostFault = DuplicateKey(key: string) | NullStatement | UnsupportedOperator(op: Token)

  /** The way an evaluation ends: normally with a value, with a Lox runtime
      error, or with a host crash. */
  datatype Outcome<+T> = Ok(value: T) | Thrown(error: RuntimeError) | Crashed(fault: HostFault)
}

module Reporting {
  import opened Strings
  import opened Tokens
  import opened Failures

  /** One call of `Lox.Report(line, where, message)`. */
  datatype Diagnostic = Diagnostic(line: nat, where: string, message: string)

  /** `Lox.Error(int line, string message)`: a diagnostic without position hint. */
  function ErrorAtLine(line: nat, message: string): (d: Diagnostic)
    ensures d.line == line && d.message == message
    ensures d.where == ""
  {
    Diagnostic(line, "", message)
  }

  /** `Lox.Error(Token token, string message)`: the hint names the token,
      or says " at end" for the end-of-input token. */
  function ErrorAt(token: Token, message: string): (d: Diagnostic)
    ensures d.line == token.line && d.message == message
    ensures token.kind == Eof <==> d.where == " at end"
    ensures token.kind != Eof ==> d.where == " at '" + token.lexeme + "'"
  {
    if token.kind == Eof then Diagnostic(token.line, " at end", message)
    else
      var where := " at '" + token.lexeme + "'";
      assert where[4] != " at end"[4];
      Diagnostic(token.line, where, message)
  }

  /** The line `Report` writes: `[line L] Error W: M`. */
  function Report(d: Diagnostic): (r: string)
    ensures |r| >= 17 + |d.where| + |d.message|
    ensures r[..6] == "[line "
    ensures exists k :: && 6 < k && k + 8 <= |r| && AllDigits(r[6..k]) && DigitsValue(r[6..k]) == d.line
                        && (r[6] != '0' || d.line == 0)
                        && r[k..k + 8] == "] Error " && r[k + 8..] == d.where + ": " + d.message
    ensures r[|r| - |d.message|..] == d.message
  {
    var digits := NatToDecimal(d.line);
    var r := "[line " + digits + "] Error " + d.where + ": " + d.message;
    assert r[6..6 + |digits|] == digits;
    assert r[6 + |digits|..6 + |digits| + 8] == "] Error ";
    assert r[6 + |digits| + 8..] == d.where + ": " + d.message;
    r
  }

  /** The text `Lox.RuntimeError` writes: the message, a newline, then
      `[line] L]` (sic). */
  function RuntimeErrorText(e: RuntimeError): (r: string)
    ensures |r| >= |e.message| + 10
    ensures r[..|e.message|] == e.message
    ensures r[|e.message|..|e.message| + 8] == "\n[line] "
    ensures r[|r| - 1] == ']'
    ensures AllDigits(r[|e.message| + 8..|r| - 1]) && DigitsValue(r[|e.message| + 8..|r| - 1]) == e.token.line
    ensures r[|e.message| + 8] != '0' || e.token.line == 0
  {
    var digits := NatToDecimal(e.token.line);
    var r := e.message + "\n[line] " + digits + "]";
    assert r[|e.message| + 8..|r| - 1] == digits;
    r
  }
}
