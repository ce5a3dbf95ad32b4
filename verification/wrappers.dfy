/** Failure-carrying wrappers shared by every module of the model.
    `Option` stands for Python's `None`-or-value; `Result` for a value or a
    raised exception, the exception being described by an `Error`. */
module Wrappers {

  datatype Option<+T> = None | Some(value: T)

  /** The exceptions the modelled code raises (or the assertions it fails). */
  datatype Error =
    | ValueError(msg: string)
    | AssertionError(msg: string)
    | KeyError(msg: string)
    | IndexError(msg: string)
    | NotImplementedError(msg: string)
    | ZeroDivisionError
    | UnboundLocalError(msg: string)
    | RuntimeError(msg: string)

  datatype Result<+T> = Ok(value: T) | Err(error: Error) {
    predicate IsFailure() {
      Err?
    }

    function PropagateFailure<U>(): Result<U>
      requires Err?
    {
      Err(error)
    }

    function Extract(): T
      requires Ok?
    {
      value
    }
  }
}
