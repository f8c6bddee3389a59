/** Option and Result types, and the Python exceptions the modelled code raises. */
module Outcomes {

  datatype Option<+T> = None | Some(value: T)

  /** The exception a Python step raises; the model returns it instead. */
  datatype Error =
    | ValueError            // int()/float() of a malformed numeral, randrange() of an empty range, min() of []
    | KeyError              // a dict lookup of a missing key
    | IndexError            // a list index out of range
    | AttributeError        // re.search(...) found nothing, so `.group` is called on None
    | TypeError             // an operation on a value of the wrong kind
    | ZeroDivisionError
    | StopIteration         // next() of an exhausted iterator
    | MultiplePlayersFound  // the repository's own MultiplePlayersFoundError

  datatype Result<+T> = Ok(value: T) | Err(error: Error) {
    predicate IsFailure() { Err? }

    function PropagateFailure<U>(): Result<U>
      requires Err?
    {
      Err(error)
    }

    function Extract(): T
      requires Ok?
    {
      value
    }
  }
}
