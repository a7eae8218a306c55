/** Result and Option values used by every module of the model in place of
    the exceptions raised (or the absent attributes read) by the original code. */
module Outcomes {

  datatype Option<+T> = None | Some(value: T)

  /** Ok carries a value; Err carries the exception the original code raises. */
  datatype Result<+T, +E> = Ok(value: T) | Err(error: E) {

    predicate IsFailure() {
      Err?
    }

    function PropagateFailure<U>(): Result<U, E>
      requires Err?
    {
      Err(error)
    }

    function Extract(): T
      requires Ok?
    {
      value
    }
  }
}
