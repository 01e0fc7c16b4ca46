/** Python-side failure values shared by every module of the model.
    Each exception class the core raises becomes one constructor; the
    reason string is a short paraphrase of the source's message. */
module Errors {

  datatype Error =
    | ValueError(reason: string)
    | TypeError(reason: string)
    | IndexError
    | RuntimeError(reason: string)
    | UnboundLocalError

  /** A value or the exception raised instead of returning it. */
  datatype Result<+T> = Ok(value: T) | Err(error: Error) {

    predicate IsFailure() {
      Err?
    }

    function PropagateFailure<U>(): Result<U>
      requires Err?
    {
      Err(error)
    }

    function Extract(): T
      requires Ok?
    {
      value
    }
  }

  /** Python's `None` or a value. */
  datatype Option<+T> = None | Some(value: T)
}
