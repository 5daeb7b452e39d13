/** Whole-run properties of the driver: the repaired interpreter never
    lets a host exception escape, the assignment to a literal that shows
    the difference, and the line numbers of a file run. */
module LoxFacts {
  import opened Wrappers
  import opened Strings
  import opened Tokens
  import opened Ast
  import opened Failures
  import opened Reporting
  import opened Dialects
  import opened Environment
  import opened Scanner
  import opened Parser
  import opened Interpreter
  import opened InterpreterFacts
  import opened ParserFacts
  import opened Lox

  /** Once repaired, a run ends normally, with 65 or with 70: no host
      exception escapes, whatever the source text. */
  lemma CorrectedRunNeverCrashes(show: real -> string, env: Env, src: string)
    requires |env| > 0
    ensures !Run(Corrected, show, env, src).status.HostCrash?
  {
    var scanned := ScanTokens(Corrected, src);
    var program := Parse(Corrected, scanned.tokens);
    if |scanned.diags + program.diags| == 0 {
      ProgramNeverCrashes(show, program.statements, env);
    }
  }

  /** A prompt session of the repaired interpreter never ends in a host
      crash either. */
  lemma {:induction false} CorrectedSessionNeverCrashes(show: real -> string, env: Env, lines: seq<string>)
    requires |env| > 0
    ensures !Session(Corrected, show, env, lines).status.HostCrash?
    decreases |lines|
  {
    if |lines| > 0 {
      CorrectedRunNeverCrashes(show, env, lines[0]);
      var first := Run(Corrected, show, env, lines[0]);
      if first.status == Completed {
        CorrectedSessionNeverCrashes(show, first.env, lines[1..]);
      }
    }
  }

  /** A program that is one null statement crashes the host before it
      prints anything or touches the chain. */
  lemma NullProgram(d: Dialect, show: real -> string, env: Env)
    requires |env| > 0
    ensures Interpret(d, show, env, [None]) == Interpreted(env, [], false, Some(NullStatement))
  {
    assert ExecuteFrom(d, show, [None], 0, env) == Executed(Crashed(NullStatement), env, []);
  }

  /** `1 = 2;` as written: the parser drops the statement without a
      report, so the run goes ahead and the null statement it left crashes
      the host before anything is printed. */
  lemma LiteralAssignmentAsWritten(show: real -> string, env: Env, src: string)
    requires |env| > 0
    requires ScanTokens(AsWritten, src).diags == [] && LiteralAssignment(ScanTokens(AsWritten, src).tokens)
    ensures Run(AsWritten, show, env, src) == RunResult([], HostCrash(NullStatement), env)
  {
    ParseLiteralAssignment(AsWritten, ScanTokens(AsWritten, src).tokens);
    NullProgram(AsWritten, show, env);
  }

  /** `1 = 2;` repaired: the parser's report is the only diagnostic. */
  lemma LiteralAssignmentReported(src: string)
    requires ScanTokens(Corrected, src).diags == [] && LiteralAssignment(ScanTokens(Corrected, src).tokens)
    ensures Diagnostics(Corrected, src) == [ErrorAt(ScanTokens(Corrected, src).tokens[1], InvalidTarget)]
  {
    ParseLiteralAssignment(Corrected, ScanTokens(Corrected, src).tokens);
    assert Diagnostics(Corrected, src) == [] + Parse(Corrected, ScanTokens(Corrected, src).tokens).diags;
  }

  /** A run whose source draws diagnostics only reports them. */
  lemma RunReports(d: Dialect, show: real -> string, env: Env, src: string)
    requires |env| > 0 && |Diagnostics(d, src)| > 0
    ensures Run(d, show, env, src) == RunResult(Reports(Diagnostics(d, src)), Exit(65), env)
  {
  }

  /** `1 = 2;` repaired: the invalid target is reported and the run exits
      with 65 without executing anything. */
  lemma LiteralAssignmentCorrected(show: real -> string, env: Env, src: string)
    requires |env| > 0
    requires ScanTokens(Corrected, src).diags == [] && LiteralAssignment(ScanTokens(Corrected, src).tokens)
    ensures Run(Corrected, show, env, src) ==
      RunResult(Reports([ErrorAt(ScanTokens(Corrected, src).tokens[1], InvalidTarget)]), Exit(65), env)
  {
    LiteralAssignmentReported(src);
    RunReports(Corrected, show, env, src);
  }

  /** Joining newline-free lines with spaces adds no newline. */
  lemma {:induction false} JoinSpaceNoNewlines(lines: seq<string>)
    requires forall i :: 0 <= i < |lines| ==> NewlinesIn(lines[i]) == 0
    ensures NewlinesIn(JoinSpace(lines)) == 0
    decreases |lines|
  {
    if |lines| > 1 {
      JoinSpaceNoNewlines(lines[1..]);
      NewlinesConcat(lines[0], " ");
      NewlinesConcat(lines[0] + " ", JoinSpace(lines[1..]));
      assert NewlinesIn(" ") == 0 by { assert " "[1..] == ""; }
    }
  }

  /** A file is scanned as one line: since its lines are joined with
      spaces rather than newlines, every token is reported on line 1,
      however many lines the file has. */
  lemma FileTokensOnLineOne(d: Dialect, lines: seq<string>)
    requires forall i :: 0 <= i < |lines| ==> NewlinesIn(lines[i]) == 0
    ensures forall t <- ScanTokens(d, JoinSpace(lines)).tokens :: t.line == 1
  {
    JoinSpaceNoNewlines(lines);
  }
}
