/** Option and Result, shared by every component of the model. */
module Wrappers {

  datatype Option<+T> = None | Some(value: T)

  /** A failure-compatible result, so that `:-` plays the part of Rust's `?`. */
  datatype Result<+T, +E> = Ok(value: T) | Err(error: E) {

    predicate IsFailure() {
      Err?
    }

    function PropagateFailure<U>(): Result<U, E>
      requires Err?
    {
      Err(error)
    }

    function Extract(): T
      requires Ok?
    {
      value
    }
  }

  /** The `std::io::ErrorKind`s that the in-memory readers and writers produce. */
  datatype IoError = UnexpectedEof | InvalidData | InvalidInput
}
