/** Runtime values and tokens. `Token` and `TokenType` are not part of the
    shown sources; they are defined here from their uses in the scanner and
    the parser. */
module Values {

  /** The dynamically typed values the interpreter manipulates (C# `object`
      holding `null`, `bool`, `double` or `string`). Numbers are exact reals:
      IEEE-754 rounding is not modelled. */
  datatype Value = Nil | Bool(b: bool) | Num(n: real) | Str(s: string)

  /** C#'s `ToString()` on a non-null value: `True`/`False` for booleans,
      the string itself, and `show` for numbers (the double formatting is a
      parameter of the model). */
  function HostText(show: real -> string, v: Value): string
    requires v != Nil
  {
    match v
    case Bool(b) => if b then "True" else "False"
    case Num(n) => show(n)
    case Str(s) => s
  }
}

module Tokens {
  import opened Values

  datatype TokenType =
    // single-character punctuation
    | LeftParen | RightParen | LeftBrace | RightBrace
    | Comma | Dot | Minus | Plus | Semicolon | Slash | Star
    // one- or two-character operators
    | Bang | BangEqual | Equal | EqualEqual
    | Greater | GreaterEqual | Less | LessEqual
    // literals
    | Identifier | String | Number
    // keywords
    | And | Class | Else | False | Fun | For | If | Nil | Or
    | Print | Return | Super | This | True | Var | While
    | Eof

  /** A token: its category, the exact source text it was scanned from, its
      literal value (`Nil` when the C# field is null) and its line. */
  datatype Token = Token(kind: TokenType, lexeme: string, literal: Value, line: nat)
}
