/** Option and Result, the shapes used for absent values and thrown exceptions. */
module Wrappers {
  datatype Option<T> = None | Some(value: T)

  /** An operation that either yields a value or fails with the message the source throws. */
  datatype Result<T> = Ok(value: T) | Err(msg: string)
  {
    predicate IsFailure() { Err? }

    function PropagateFailure<U>(): Result<U>
      requires Err?
    {
      Err(msg)
    }

    function Extract(): T
      requires Ok?
    {
      value
    }
  }
}
