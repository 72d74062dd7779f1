/** Failure-compatible wrappers shared by the whole model, and the compute-once cell
    that stands for `once_cell::unsync::OnceCell`. */
module Wrappers {

  datatype Option<+T> = None | Some(value: T)

  datatype Result<+T, +E> = Ok(value: T) | Err(error: E) {
    predicate IsFailure() { Err? }

    function PropagateFailure<U>(): Result<U, E>
      requires Err?
    {
      Err(error)
    }

    function Extract(): T
      requires Ok?
    {
      value
    }
  }

  /** A cell that is either still empty or holds the value computed by its first reader. */
  datatype Cell<+T> = Empty | Full(value: T)
}
