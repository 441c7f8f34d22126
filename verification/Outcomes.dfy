/** Optional values and the ways a run of the inventory builder can stop without saving. */
module Outcomes {

  datatype Option<+T> = None | Some(value: T)

  datatype Error =
    | HelpShown          // no arguments: usage is printed and nothing is saved
    | CommandOnly        // a command that only prints
    | NoConfigFile       // the saved inventory cannot be opened
    | EmptyArgument      // an empty argument has no first character
    | BadRange           // an address range that does not parse
    | BadHostName        // a loaded host name with the generated prefix but no number
    | TooManyFields      // more comma-separated fields than can be unpacked
    | UnboundVariable    // a host name without an address before any address was read

  datatype Outcome<+T> = Ok(value: T) | Fail(error: Error) {
    predicate IsFailure() {
      Fail?
    }

    function PropagateFailure<U>(): Outcome<U>
      requires Fail?
    {
      Fail(error)
    }

    function Extract(): T
      requires Ok?
    {
      value
    }
  }
}
