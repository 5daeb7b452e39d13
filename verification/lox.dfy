/** The driver: `Run` scans, parses and, when no error was reported,
    interprets one source text against the interpreter's persistent global
    scope. `HadError` is "some diagnostic was reported during this run";
    `Environment.Exit` ends the process and so ends a run, a prompt session
    or a file. */
module Lox {
  import opened Wrappers
  import opened Strings
  import opened Tokens
  import opened Ast
  import opened Failures
  import opened Reporting
  import opened Dialects
  import opened Environment
  import Scanner
  import Parser
  import Interpreter

  /** How a run ends: normally, by `Environment.Exit(code)`, or by a host
      exception escaping `Main`. */
  datatype Status = Completed | Exit(code: int) | HostCrash(fault: HostFault)

  /** The console lines written, how the run ended, and the global scope
      chain afterwards (it outlives the run in a prompt session). */
  datatype RunResult = RunResult(out: seq<string>, status: Status, env: Env)

  /** The lines `Report` writes for a list of diagnostics, in order. */
  function Reports(diags: seq<Diagnostic>): (r: seq<string>)
    ensures |r| == |diags|
    ensures forall i :: 0 <= i < |diags| ==> r[i] == Report(diags[i])
  {
    seq(|diags|, i requires 0 <= i < |diags| => Report(diags[i]))
  }

  /** Every diagnostic a source text draws: the scanner's, then the
      parser's. */
  function Diagnostics(d: Dialect, src: string): seq<Diagnostic> {
    var scanned := Scanner.ScanTokens(d, src);
    scanned.diags + Parser.Parse(d, scanned.tokens).diags
  }

  /** The statements the parser builds from a source text. */
  function Program(d: Dialect, src: string): seq<Option<Stmt>> {
    Parser.Parse(d, Scanner.ScanTokens(d, src).tokens).statements
  }

  /** `Run(source)`. A reported error exits with 65 before anything runs,
      so the chain is untouched; a runtime error is printed and exits with
      70; an uncaught host exception ends the process. */
  function Run(d: Dialect, show: real -> string, env: Env, src: string): (r: RunResult)
    requires |env| > 0
    ensures |r.env| == |env|
    ensures r.status == Exit(65) <==> |Diagnostics(d, src)| > 0
    ensures r.status == Exit(65) ==> r.env == env && r.out == Reports(Diagnostics(d, src))
    ensures r.status.Exit? ==> r.status.code == 65 || r.status.code == 70
    ensures |Diagnostics(d, src)| == 0 ==>
      var x := Interpreter.ExecuteAll(d, show, Program(d, src), env);
      && (r.status == Completed <==> x.result.Ok?)
      && (r.status == Exit(70) <==> x.result.Thrown?)
      && (r.status.HostCrash? <==> x.result.Crashed?)
      && (x.result.Crashed? ==> r.status == HostCrash(x.result.fault))
      && r.env == x.env
      && r.out == x.out + (if x.result.Thrown? then [RuntimeErrorText(x.result.error)] else [])
  {
    var diags := Diagnostics(d, src);
    if |diags| > 0 then RunResult(Reports(diags), Exit(65), env)
    else
      var result := Interpreter.Interpret(d, show, env, Program(d, src));
      var status :=
        if result.crash.Some? then HostCrash(result.crash.value)
        else if result.hadRuntimeError then Exit(70)
        else Completed;
      RunResult(result.out, status, result.env)
  }

  /** The global scope of a fresh interpreter. */
  const Globals: Env := [map[]]

  /** `RunPrompt` over the lines the user types: each runs against the
      scope the previous ones left; output accumulates; the session ends at
      the first line that does not complete, since every such line ends the
      process. */
  function Session(d: Dialect, show: real -> string, env: Env, lines: seq<string>): (r: RunResult)
    requires |env| > 0
    ensures |r.env| == |env|
    ensures |lines| == 0 ==> r == RunResult([], Completed, env)
    ensures |lines| > 0 && Run(d, show, env, lines[0]).status != Completed ==> r == Run(d, show, env, lines[0])
    ensures |lines| > 0 && Run(d, show, env, lines[0]).status == Completed ==>
      var first := Run(d, show, env, lines[0]);
      var rest := Session(d, show, first.env, lines[1..]);
      r == RunResult(first.out + rest.out, rest.status, rest.env)
    decreases |lines|
  {
    if |lines| == 0 then RunResult([], Completed, env)
    else
      var first := Run(d, show, env, lines[0]);
      if first.status != Completed then first
      else
        var rest := Session(d, show, first.env, lines[1..]);
        RunResult(first.out + rest.out, rest.status, rest.env)
  }

  /** `string.Join(" ", lines)`. */
  function JoinSpace(lines: seq<string>): (r: string)
    ensures |lines| == 0 ==> r == ""
    ensures |lines| == 1 ==> r == lines[0]
    decreases |lines|
  {
    if |lines| == 0 then "" else if |lines| == 1 then lines[0]
    else lines[0] + " " + JoinSpace(lines[1..])
  }

  /** `RunFile`: the file's lines joined by spaces and run once against a
      fresh interpreter. */
  function RunFile(d: Dialect, show: real -> string, lines: seq<string>): (r: RunResult)
    ensures |r.env| == 1
    ensures r.status == Exit(65) <==> |Diagnostics(d, JoinSpace(lines))| > 0
    ensures r.status == Exit(65) ==> r.env == Globals
  {
    Run(d, show, Globals, JoinSpace(lines))
  }
}
