# CLex: a Dafny model of a Lox tree-walking interpreter

This project models the C# CLex interpreter for the statement subset of Lox.
That subset has expressions, `print`, `var`, assignment and blocks. The
pipeline runs in this order:

- The scanner (`Scanner.ScanTokens`) turns source text into tokens and
  reports lexical errors.
- The recursive-descent parser (`Parser.Parse`) recovers from errors in
  panic mode and leaves a null entry for each declaration it could not
  parse.
- The evaluator (`Interpreter`) works over a chain of scopes (`Env`).
- The debug printer (`AstPrinter`) renders expressions.
- The driver (`Lox.Run`) formats diagnostics and gates execution on the
  error flags. Its exit codes are 65 and 70.

Everything is pure functions over immutable data:

- Tokens, `Expr` and `Stmt` are datatypes.
- A scope chain is a `seq<map<string, Value>>`, with the innermost scope
  first.
- Each parser function takes a token cursor. It returns either `Done` with
  the value and the new cursor, or `Panic` with the cursor where a
  `ParserException` was thrown.
- Diagnostics are returned in the order they are reported.
- Every evaluation and execution ends in one of three outcomes:
  - `Ok`.
  - `Thrown`, for a Lox `RuntimeException`.
  - `Crashed`, for a .NET exception that `Interpret` does not catch, so it
    ends the process.

The source has four places where the code does something other than what
its design evidently intends. Every phase therefore takes a `Dialect`:

- `AsWritten` does what the C# code does, branch for branch.
- `Corrected` repairs exactly those four places. Each one is listed under
  "## Findings".

The lemmas state both behaviours and show where they differ.

Behaviours of this code worth noting, all of which the model follows:

- Two-character operators are not matched longest-first, because
  `Scanner.Match` does not advance.
- An unterminated string ends the scan: the string loop has already
  consumed the rest of the source.
- Assignment to an existing name does not overwrite it. It crashes the
  host.
- "Invalid assignment target." is not reported.
- `==` and `!=` demand two numbers.
- The binary type error reads "Operands must be two number.".
- A run without errors does not call `Environment.Exit`. It ends as
  `Completed`.

Modules:

| file | module | source |
|---|---|---|
| common.dfy | Wrappers, Dialects | — |
| strings.dfy | Strings | CLex/StringExtention.cs, and decimal digit text |
| tokens.dfy | Values, Tokens | token and literal shapes used by the scanner and parser |
| ast.dfy | Ast | CLex/Expr.cs, CLex/Stmt.cs |
| errors.dfy | Failures, Reporting | exceptions, and `Lox.Error`/`Report`/`RuntimeError` formatting |
| environment.dfy | Environment | CLex/Env.cs |
| scanner.dfy, scanner_facts.dfy | Scanner, ScannerFacts | CLex/Scanner.cs |
| parser.dfy, parser_facts.dfy, parser_order.dfy | Parser, ParserFacts, ParserOrder | CLex/Parser.cs |
| interpreter.dfy, interpreter_facts.dfy | Interpreter, InterpreterFacts | CLex/Interpreter.cs |
| astprinter.dfy | AstPrinter | CLex/AstPrinter.cs |
| lox.dfy, lox_facts.dfy | Lox, LoxFacts | CLex/Lox.cs |

## Model

| member | source | states |
|---|---|---|
| Strings.SubStartEnd | CLex/StringExtention.cs:11-15 | Defined exactly when `0 <= start <= end <= |s|`, where `Substring` does not throw. The result has length `end - start`, character `i` is `s[start + i]`, and `(a, a)` gives the empty string. |
| Strings.NatToDecimal | CLex/Lox.cs:80-84 | The decimal text of a line number, as the diagnostics print it, is a non-empty digit string without a leading zero, and its digit value is the number. |
| Reporting.ErrorAtLine | CLex/Lox.cs:63-66 | `Error(line, message)` reports at that line with an empty where-clause. |
| Reporting.ErrorAt | CLex/Lox.cs:68-78 | `Error(token, message)` reports at the token's line. The where-clause is " at end" exactly when the token is EOF, and " at '<lexeme>'" otherwise. |
| Reporting.Report | CLex/Lox.cs:80-84 | The line is "[line ", the decimal line number without leading zeros, "] Error ", the where-hint, ": " and the message, in that order. |
| Reporting.RuntimeErrorText | CLex/Lox.cs:25-30 | The message, then "\n[line] ", then digits without leading zeros whose decimal value is the token's line, then a closing "]". |
| Environment.Define | CLex/Env.cs:14-17 | Installs or overwrites the name in the innermost scope only. The other names of that scope and every outer scope are unchanged. The call always succeeds. |
| Environment.Get | CLex/Env.cs:26-36 | Succeeds exactly when some scope defines the name. It returns the binding of the nearest such scope, and otherwise throws "Undefined variable 'x'." at the token. |
| Environment.Assign | CLex/Env.cs:38-54 | As written, assignment never succeeds. If some scope defines the name, `Dictionary.Add` crashes the host with a duplicate key. Otherwise it throws "Undefined variable 'x'" without a period. |
| Environment.AssignCorrected | CLex/Env.cs:38-54 | Corrected assignment succeeds exactly when some scope defines the name. It overwrites the binding in the nearest such scope and changes nothing else, and it never crashes. |
| Environment.AssignCorrectedKeepsNames | CLex/Env.cs:38-54 | Corrected assignment keeps the chain's length and every scope's set of names: no binding is created or removed. |
| Environment.GetAfterDefine | CLex/Env.cs:14-17 | After `Define(x, v)`, `Get(x)` gives `v` and a read of any other name gives what it gave before. |
| Environment.AssignCorrectedThenGet | CLex/Env.cs:38-54 | For a defined name, corrected assignment succeeds. A following `Get` returns the new value, and every other name reads as before. |
| Scanner.NewlinesConcat | CLex/Scanner.cs:91-93 | The line counter is additive over concatenated text. |
| Scanner.SpanEnd | CLex/Scanner.cs:116 | The `while (p(Peek())) Advance();` loops stop at the first character that fails the test, or at the end. |
| Scanner.KeywordOrIdentifier | CLex/Scanner.cs:7-25 | A word in the keyword table gets its keyword type and any other word is IDENTIFIER. Neither is EOF. |
| Scanner.AddToken | CLex/Scanner.cs:209-213 | The token's lexeme is `source[start..current)` at the current line, and scanning resumes at `current`. |
| Scanner.ScanIdentifier | CLex/Scanner.cs:114-138 | Consumes the maximal alphanumeric run from an alphabetic start and emits a keyword-or-identifier token with that lexeme and no literal. |
| Scanner.ScanNumber | CLex/Scanner.cs:140-161 | The lexeme is of the form `digits('.'digits)?` and is the longest such prefix, so a `.` without a following digit is left alone. The literal is the lexeme's value. |
| Scanner.NumberLexemeLongest | CLex/Scanner.cs:142-151 | The two digit loops and the `.`-then-digit test stop exactly at the end of the longest number lexeme. |
| Scanner.ScanString | CLex/Scanner.cs:168-188 | A terminated string emits a STRING token whose value is the text strictly between the quotes, and the line counter grows by the newlines inside. An unterminated one reports "Unterminated string." at the final line, emits nothing and consumes the rest of the source. |
| Scanner.ScanOperator | CLex/Scanner.cs:68-71 | The two-character kind is chosen exactly when `=` follows. As written, only one character is consumed either way. Corrected, both are consumed. |
| Scanner.ScanSlash | CLex/Scanner.cs:75-84 | `//` skips up to the next newline or the end without a token. A lone `/` is SLASH. |
| Scanner.ScanToken | CLex/Scanner.cs:52-112 | Each step consumes at least one character and emits at most one token. That token is not EOF, its lexeme is the consumed text, and its line is the current line. Whitespace emits nothing. As written, an operator step consumes one character. |
| Scanner.ScanFrom | CLex/Scanner.cs:42-46 | The loop reaches the end of the source. The final line is the start line plus the newlines crossed. No emitted token is EOF, and every token's line lies between the start line and the final one. |
| Scanner.ScanTokens | CLex/Scanner.cs:40-50 | The result ends in exactly one EOF token, with an empty lexeme and line `1 + newlines`. No earlier token is EOF, and every token's line is between 1 and the final line. |
| ScannerFacts.ScanFromStep | CLex/Scanner.cs:42-46 | The tokens and diagnostics of a scan are those of its first step followed by those of the rest. |
| ScannerFacts.EqualEqualAsWritten | CLex/Scanner.cs:196-202 | As written, `==` lexes as EQUAL_EQUAL with lexeme "=", then a second token with lexeme "=" scanned from the second `=`. |
| ScannerFacts.EqualEqualCorrected | CLex/Scanner.cs:69 | Corrected, `==` lexes as a single EQUAL_EQUAL token with lexeme "==". |
| ScannerFacts.DecimalIsNumber | CLex/Scanner.cs:140-155 | The decimal text of a natural number is a number lexeme whose value is that number. |
| ScannerFacts.ScanDecimal | CLex/Scanner.cs:140-155 | Round trip: scanning the decimal text of `n` consumes all of it and yields the one NUMBER token whose literal is `n`. |
| ScannerFacts.DotWithoutDigit | CLex/Scanner.cs:145-151 | A `.` not followed by a digit ends the number before it and is scanned next as DOT, so `1.` is NUMBER then DOT. |
| ScannerFacts.UnexpectedCharacter | CLex/Scanner.cs:106-109 | A character no rule handles is reported as "Unexpected character." at the current line and skipped, without a token. |
| Parser.Advance | CLex/Parser.cs:263-271 | The cursor moves by one unless it is on EOF, where it stays. It never leaves the token list. |
| Parser.Consume | CLex/Parser.cs:213-216 | Advances past the token exactly when it has the expected kind, which is never at EOF. Otherwise it panics at that token and reports the message there. |
| Parser.Expression | CLex/Parser.cs:88-91 | An expression either parses well formed, without new diagnostics and with the cursor moved forward, or panics. In the corrected dialect a panic always carries a diagnostic. A parsed tree is `Layered` at the loosest level: every binary node obeys precedence and left association, and only parentheses reset the bound. |
| Parser.Assignment | CLex/Parser.cs:93-108 | The same step property for `Assignment`. Its tree is layered at the loosest level, so an assignment never stands under an operator without parentheses. |
| Parser.BinaryLevel | CLex/Parser.cs:110-163 | The step property, for every level and every input. The tree shows no operator looser than its level without parentheses. In each binary node the right operand holds only strictly tighter operators, and the left operand holds operators of the node's own level or tighter. So each level associates to the left and binds looser than the next. |
| Parser.BinaryTail | CLex/Parser.cs:114-120 | The operator loop stops only where no operator of its level follows. Each round keeps the tree built so far layered at its level. |
| Parser.Unary | CLex/Parser.cs:165-174 | The same step property for prefix `!` and `-`. The result has no binary operator at its top without parentheses. |
| Parser.Primary | CLex/Parser.cs:176-211 | NUMBER and STRING give their literal, and IDENTIFIER gives a variable node, each consuming one token. A token whose kind starts no primary panics at that token with exactly the "Expected expression." report. |
| Parser.Synchronize | CLex/Parser.cs:237-261 | Recovery skips at least one token. It stops at the first boundary after that: just after a `;`, before a statement keyword, or at EOF. |
| Parser.Declaration | CLex/Parser.cs:26-38 | A declaration always consumes at least one token. A null entry is left only at a recovery boundary. In the corrected dialect, a declaration without diagnostics is present and well formed. |
| Parser.VarDeclaration | CLex/Parser.cs:40-50 | On success the statement is a `var` named by the IDENTIFIER token. It has an initializer exactly when `=` follows the name. |
| Parser.Initializer | CLex/Parser.cs:43-47 | The initializer is present exactly when `=` follows. |
| Parser.Block | CLex/Parser.cs:60-72 | A successful block ends just past a `}`. |
| Parser.BlockItems | CLex/Parser.cs:64-67 | Declarations are collected until `}` or EOF. `ParserOrder.BlockItemsInOrder` states which declarations, and in what order. |
| Parser.ExpressionStatement | CLex/Parser.cs:74-79 | An expression statement ends just past a `;`. |
| Parser.PrintStatement | CLex/Parser.cs:81-86 | A print statement ends just past a `;`. |
| Parser.Parse | CLex/Parser.cs:16-24 | Parsing terminates with fewer statements than tokens. In the corrected dialect, a parse without diagnostics has no null entry and only known operators. `ParserOrder.ParseInOrder` states which declarations, and in what order. |
| Parser.Statement | CLex/Parser.cs:52-58 | `print` gives a print statement and `{` a block. Any other token gives an expression statement. A statement that parses consumes at least one token. In the corrected dialect, one parsed without diagnostics is well formed. |
| ParserOrder.DeclarationStarts | CLex/Parser.cs:19-22 | The cursor positions where successive declarations begin. The first is the starting cursor, and the list is empty exactly at EOF or a closing token. No start is EOF or a closing token. |
| ParserOrder.StartsFollowOn | CLex/Parser.cs:19-22 | Each declaration after the first begins exactly where the one before it stopped. |
| ParserOrder.StatementsAtIndex | CLex/Parser.cs:19-22 | Entry `i` of the collected statements is the result of the declaration begun at start `i`. |
| ParserOrder.ParseFromInOrder | CLex/Parser.cs:19-22 | The top-level loop's statements are the declarations begun at the successive starts, and its diagnostics are theirs concatenated, in that order. |
| ParserOrder.ParseInOrder | CLex/Parser.cs:16-24 | `Parse` has one entry per top-level declaration start. Entry `i` is the declaration begun at the `i`-th start, and the diagnostics are the declarations' diagnostics in source order. |
| ParserOrder.BlockItemsFromStarts | CLex/Parser.cs:64-67 | The block loop's statements and diagnostics are those of the declarations begun at the successive starts before `}` or EOF, in that order. It stops where the last of them stopped. |
| ParserOrder.BlockItemsInOrder | CLex/Parser.cs:64-67 | Entry `i` of a block's statement list is the declaration begun at the `i`-th start, with the diagnostics in order. The loop stops where the last declaration stopped, or at once when `}` or EOF comes first. |
| ParserFacts.NumberAlone | CLex/Parser.cs:110-163 | A number followed by no operator of this or a tighter level parses alone at every binary level. |
| ParserFacts.TailRound | CLex/Parser.cs:114-120 | For any input: an operator of the level and an operand that parses wrap the tree so far as a binary node, and the loop continues after the operand. |
| ParserFacts.TailEnd | CLex/Parser.cs:114-120 | For any input: where no operator of the level follows, the loop returns the tree built so far and consumes nothing. |
| ParserFacts.SubtractionGroupsLeft | CLex/Parser.cs:141-151 | `1 - 2 - 3` parses as `(1 - 2) - 3`. |
| ParserFacts.ProductBindsTighter | CLex/Parser.cs:141-163 | `1 + 2 * 3` parses as `1 + (2 * 3)`. |
| ParserFacts.AssignmentToLiteral | CLex/Parser.cs:93-108 | For `1 = 2;`, `Assignment` panics at the `;`. As written nothing is reported. Corrected, "Invalid assignment target." is reported at the `=`. |
| ParserFacts.DeclareLiteralAssignment | CLex/Parser.cs:26-38 | For `1 = 2;`, the declaration recovers past the `;` and yields a null entry. |
| ParserFacts.ParseLiteralAssignment | CLex/Parser.cs:16-24 | For `1 = 2;`, the program is a single null statement. As written it has no diagnostics. Corrected, it has exactly the invalid-target diagnostic. |
| ParserFacts.VariableAlone | CLex/Parser.cs:110-201 | A variable followed by no operator of this or a tighter level parses alone, as a variable node, at every binary level. |
| ParserFacts.AssignmentLeaf | CLex/Parser.cs:93-108 | Without a following `=`, `Assignment` returns its operand unchanged. |
| ParserFacts.AssignmentStep | CLex/Parser.cs:96-104 | A variable, `=` and a value that parses give an assignment node of that variable to that value. |
| ParserFacts.AssignmentToVariable | CLex/Parser.cs:96-104 | For any input: a variable target, `=` and a value that parses give an assignment to the variable's name, ending where the value ends. |
| ParserFacts.AssignmentInvalidTarget | CLex/Parser.cs:93-108 | For any input: any other target, `=` and a value that parses make the parser throw at the end of the value. The "Invalid assignment target." report at the `=` appears only when corrected. |
| ParserFacts.AssignmentGroupsRight | CLex/Parser.cs:93-108 | `a = b = 1` parses as `a = (b = 1)`. |
| ParserFacts.KeywordLiterals | CLex/Parser.cs:178-191 | `false`, `true` and `nil` parse as the literals false, true and nil, consuming one token. |
| ParserFacts.PrimaryGroup | CLex/Parser.cs:203-208 | `(`, an expression that parses, and `)` give a grouping node around that expression. |
| ParserFacts.GroupedNumber | CLex/Parser.cs:203-208 | `( n )` parses as a grouping of the number's literal. |
| Interpreter.IsTruthy | CLex/Interpreter.cs:144-149 | Only nil and false are falsy. |
| Interpreter.IsEqual | CLex/Interpreter.cs:108-115 | Nil equals only nil. Otherwise equality is value equality, so numbers, strings and booleans compare by value. |
| Interpreter.BinaryOp | CLex/Interpreter.cs:54-100 | `+` succeeds exactly on two numbers or two strings, and otherwise throws "Operands must be two numbers or two strings". `-`, `/`, `*` and the comparisons succeed exactly on two numbers. As written, `==` and `!=` also need two numbers; corrected, they always compare. Every other failure throws "Operands must be two number.", and an operator outside the switch crashes the host. |
| Interpreter.UnaryOp | CLex/Interpreter.cs:127-142 | `-` negates and succeeds exactly on a number, otherwise throwing "Operand must be a number.". `!` is negated truthiness. Any other operator yields nil. |
| Interpreter.AssignIn | CLex/Interpreter.cs:180-185 | As written an assignment never completes. Corrected it never crashes. A completed assignment keeps the chain's shape. |
| Interpreter.Evaluate | CLex/Interpreter.cs:44-185 | Evaluating an expression never adds or removes a binding. As written it leaves the chain untouched. |
| Interpreter.Stringify | CLex/Interpreter.cs:30-42 | Nil prints "nil", a string prints itself, and a boolean prints "True" or "False" as `bool.ToString` does. A number prints its text, minus a trailing ".0" when there is one. |
| Interpreter.Execute | CLex/Interpreter.cs:151-191 | Only the innermost scope can gain names and outer scopes keep theirs. A statement other than `var` keeps the chain's shape. |
| Interpreter.ExecuteBlock | CLex/Interpreter.cs:187-208 | A block's scope is popped on every exit, so the chain afterwards has the shape it had before. As written it is the same chain. |
| Interpreter.ExecuteFrom | CLex/Interpreter.cs:193-208 | A statement loop only grows the innermost scope. |
| Interpreter.ExecuteAll | CLex/Interpreter.cs:14-17 | Running a program's statements in order only grows the innermost scope: outer scopes keep their names, and as written they are untouched. `InterpreterFacts.ExecuteAllAppend` gives the sequencing. |
| Interpreter.Interpret | CLex/Interpreter.cs:10-23 | A runtime error sets the flag exactly when execution threw, and its one report line follows the output so far. A host crash escapes exactly when execution crashed, with that fault, and never together with a runtime error. The chain is the one execution left. |
| InterpreterFacts.ExecuteFromAppend | CLex/Interpreter.cs:14-17 | Running `s1 + s2` runs `s1` and then, only if that completed, `s2` in the resulting chain, with the outputs concatenated. |
| InterpreterFacts.ExecuteAllAppend | CLex/Interpreter.cs:14-17 | The same for whole statement lists. Execution stops at the first failure. |
| InterpreterFacts.DeclarePrint | CLex/Interpreter.cs:157-178 | `var x = v; print x;` defines `x` in the current scope and prints `v`. |
| InterpreterFacts.BlockShadowing | CLex/Interpreter.cs:187-208 | `{ var x = v; print x; }` prints `v` and leaves the outer chain exactly as it was, whatever `x` was bound to outside. |
| InterpreterFacts.DeclareThenAssign | CLex/Env.cs:40-43 | `var x = a; x = b;`: as written, the assignment crashes the host with a duplicate key after `x` was defined as `a`. Corrected, it completes with `x` bound to `b`. |
| InterpreterFacts.EvaluateNeverCrashes | CLex/Interpreter.cs:44-185 | Corrected evaluation of a well-formed expression never crashes the host. |
| InterpreterFacts.ExecuteNeverCrashes | CLex/Interpreter.cs:151-191 | Corrected execution of a well-formed statement never crashes the host. |
| InterpreterFacts.ProgramNeverCrashes | CLex/Interpreter.cs:10-23 | A corrected program without null entries never crashes the host. |
| InterpreterFacts.AssignmentAsWritten | CLex/Interpreter.cs:180-185 | As written, an assignment never yields a value. Once its right side evaluates, it crashes exactly when the name is defined. |
| InterpreterFacts.AssignmentCorrected | CLex/Interpreter.cs:180-185 | Corrected, an assignment to a defined name yields the assigned value, and reading the name afterwards gives that value. This also holds when the right side itself assigns, as in `a = b = 1`. |
| InterpreterFacts.StringEqualityAsWritten | CLex/Interpreter.cs:75-77 | As written, `"s" == "s"` throws "Operands must be two number.". Corrected, it is true. |
| InterpreterFacts.EqualityCorrected | CLex/Interpreter.cs:108-115 | Corrected `==` agrees with `IsEqual` on every pair of values. |
| InterpreterFacts.DeclareWithoutInitializer | CLex/Interpreter.cs:169-178 | `var x;` with no initializer completes normally, binds `x` to nil in the innermost scope and prints nothing. |
| InterpreterFacts.LeftOperandFirst | CLex/Interpreter.cs:49-52 | A binary expression whose left operand throws or crashes ends with exactly that outcome and chain. The right operand is never evaluated. |
| InterpreterFacts.RightOperandSecond | CLex/Interpreter.cs:49-52 | When the left operand succeeds and the right one fails, the binary expression ends with the right operand's outcome, evaluated in the chain the left one left behind. |
| AstPrinter.Print | CLex/AstPrinter.cs:44-59 | Assign and Variable print as null (`None`). Every other expression prints its parenthesized text. |
| AstPrinter.OccurrencesConcat | CLex/AstPrinter.cs:29-42 | Character counts add over the pieces `Parenthesize` appends. |
| AstPrinter.TextBalanced | CLex/AstPrinter.cs:7-42 | When the leaf texts have no parentheses, the printed text has exactly one `(` and one `)` per binary, unary or grouping node. |
| AstPrinter.PrintExample | CLex/AstPrinter.cs:7-27 | `-123 * (45.67)` prints as `(* (- 123) (group 45.67))`. |
| Lox.Reports | CLex/Lox.cs:80-84 | One report line per diagnostic, in order. |
| Lox.Run | CLex/Lox.cs:43-61 | The run exits with 65 exactly when scanning or parsing reported something, leaving the chain untouched, with the reports as output. Otherwise the parsed program runs: the run completes, exits with 70 or crashes the host exactly as execution completes, throws or crashes. The output is the program's lines, plus the runtime-error report after a throw, and the chain is the one execution left. |
| Lox.Session | CLex/Lox.cs:32-41 | No lines: completed with no output. A first line that exits or crashes ends the session with its own result. A first line that completes is followed by the rest of the session on the chain it left, and the outputs are concatenated. |
| Lox.JoinSpace | CLex/Lox.cs:18-20 | Joining no lines gives "", and one line gives itself. |
| Lox.RunFile | CLex/Lox.cs:16-23 | A file runs once against fresh globals. It exits with 65 exactly when its space-joined text draws a diagnostic, and then the globals are untouched. |
| LoxFacts.CorrectedRunNeverCrashes | CLex/Lox.cs:43-61 | In the corrected dialect no run ends in a host crash. |
| LoxFacts.CorrectedSessionNeverCrashes | CLex/Lox.cs:32-41 | In the corrected dialect no prompt session ends in a host crash. |
| LoxFacts.NullProgram | CLex/Interpreter.cs:25-28 | Executing a null statement crashes the host before any output or runtime error. |
| LoxFacts.LiteralAssignmentAsWritten | CLex/Parser.cs:105 | As written, a source that lexes as `1 = 2;` passes the error gate and crashes the host on the null statement, with no output. |
| LoxFacts.LiteralAssignmentReported | CLex/Parser.cs:105 | Corrected, such a source draws exactly one diagnostic, "Invalid assignment target.", at the `=`. |
| LoxFacts.RunReports | CLex/Lox.cs:51 | When anything is reported, the run prints exactly the reports, exits with 65 and keeps the chain. |
| LoxFacts.LiteralAssignmentCorrected | CLex/Parser.cs:105 | Corrected, such a source prints the one invalid-target report and exits with 65. |
| LoxFacts.FileTokensOnLineOne | CLex/Lox.cs:18-20 | Joining a file's lines with spaces puts every token, EOF included, on line 1. |

## Left out

- Strings and characters are sequences of Unicode scalar values, not the UTF-16 code units of a C# `string`. Outside the Basic Multilingual Plane the two differ: the C# scanner sees a surrogate pair as two unexpected characters and reports twice, where the model reports once. Lexeme lengths and positions differ in the same way.
- IEEE-754 doubles are not modelled. Numbers are exact reals.
  - `double.Parse` (CLex/Scanner.cs:154) becomes the exact decimal value of the lexeme.
  - NaN and the infinities do not exist.
  - Division by zero yields 0 (`Interpreter.Quotient`) instead of an infinity or NaN.
- `double.ToString` is not modelled.
  - Number text is a parameter `show: real -> string` of the printer and evaluator, with the ".0" trimming applied on top.
  - `Interpreter.Stringify` is therefore stated relative to `show` for numbers.
  - `bool.ToString` is modelled: booleans render as "True"/"False".
- Console I/O and the process exit are not modelled as effects.
  - `Console.WriteLine` output is returned as a sequence of lines.
  - `Environment.Exit` becomes a returned status, and an uncaught .NET exception becomes `HostCrash`.
  - Both end the run, as they end the process.
- `RunPrompt` is modelled as `Lox.Session` over a finite list of typed lines. The endless loop, the prompt text, and the `null` line at end of input are left out. `HadError` is reset after each line, which the model shows by computing each run's diagnostics afresh.
- `RunFile` is modelled from the file's lines, which are a parameter. Reading the file is left out.
- The static `HadError`/`HadRuntimeError` flags and the long-lived interpreter are left out as mutable state. They are threaded as values: diagnostics are returned, and the global scope chain is passed in and returned.
- CLex/Program.cs (argument dispatch) is not part of this model.
- GenerateAst/Program.cs is not part of this model. It is a build-time generator of C# text.
- CLex/ExprTemplate.cs is not part of this model. It is unused code.
- CLex/RuntimeException.cs and CLex/ParserException.cs become the `RuntimeError` datatype and the parser's `Panic` result. The .NET exception classes themselves are not modelled.
- Expr.cs/Stmt.cs `Accept` dispatch and the visitor interfaces become `match` expressions. Immutability after construction is a property of Dafny datatypes, so it needs no proof.
- `AstPrinter` is constructed in `Run` but never used (CLex/Lox.cs:49-50). The model has no printer step in `Lox.Run`.
- Environment.Assign: as written it never updates a binding. Its contract states that outcome, and the updating behaviour is stated on `Environment.AssignCorrected`.
- LoxFacts.LiteralAssignmentAsWritten, LoxFacts.LiteralAssignmentCorrected: they take "this source lexes to the tokens of `1 = 2;`" as a hypothesis instead of naming a concrete source string.

## Findings

| source | as written | input that shows it | evidently intended | confidence | as-written member | corrected member |
|---|---|---|---|---|---|---|
| CLex/Scanner.cs:196-202 | `Match` tests the next character but does not advance past it, so each two-character operator yields a one-character token, and its `=` is scanned again | `a == b` lexes as IDENTIFIER, EQUAL_EQUAL "=", EQUAL "=", IDENTIFIER, and the parser then fails | consume the matched `=`: one EQUAL_EQUAL token "==" | high (not executed) | ScannerFacts.EqualEqualAsWritten | ScannerFacts.EqualEqualCorrected |
| CLex/Interpreter.cs:72-77 | `==` and `!=` run the two-number check before `IsEqual` | `"a" == "a"` throws "Operands must be two number." | compare any two values with `IsEqual` | high (not executed) | InterpreterFacts.StringEqualityAsWritten | InterpreterFacts.EqualityCorrected |
| CLex/Env.cs:40-42 | `Assign` calls `Dictionary.Add` on a key it has just found, which throws ArgumentException; `Interpret` does not catch it | `var x = 1; x = 2;` crashes the host | overwrite the binding in the nearest defining scope | high (not executed) | InterpreterFacts.DeclareThenAssign | Environment.AssignCorrectedThenGet |
| CLex/Parser.cs:105 | "Invalid assignment target." is thrown as a bare exception without `Lox.Error`, so `HadError` stays false and the null placeholder reaches `Execute` | `1 = 2;` passes the error gate and `Execute(null)` throws NullReferenceException | report the error, so the run exits with 65 | high (not executed) | LoxFacts.LiteralAssignmentAsWritten | LoxFacts.LiteralAssignmentCorrected |
