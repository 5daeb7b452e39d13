/** Small shared datatypes: an optional value (the source's nullable
    references) and the choice between the code as written and the
    evidently intended behaviour. */
module Wrappers {

  /** A nullable reference: `None` plays the part of C#'s `null`. */
  datatype Option<+T> = None | Some(value: T) {

    /** The value, or `default` when there is none. */
    function GetOr(default: T): T {
      match this
      case Some(v) => v
      case None => default
    }
  }
}

module Dialects {

  /** `AsWritten` follows the repository's code line by line, including its
      four defects; `Corrected` repairs exactly those four and nothing else:
      the scanner's `Match` consumes the character it matched, equality has
      no number check, `Env.Assign` overwrites the existing binding, and an
      invalid assignment target is reported like every other syntax error. */
  datatype Dialect = AsWritten | Corrected
}
