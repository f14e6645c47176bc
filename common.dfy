/** Small shared vocabulary: Rust's `Option`, and the ways an operation of the
    interpreter can stop the process instead of returning. */
module Common {

  datatype Option<+T> = None | Some(value: T)

  /** Why an operation did not return.
      - Panic: a Rust `panic!`, `todo!`, failed `expect`/`unwrap`, an index out of
        bounds on a slice, or an unsigned subtraction that overflows.
      - OutOfBounds: an unsafe raw-pointer access at `offset` slots from the start of
        a fixed array that lies outside it (undefined behaviour in the source; the
        model stops there instead of guessing what memory holds). */
  datatype Failure = Panic(message: string) | OutOfBounds(offset: int)

  /** Rust's `Result` with a string error. */
  datatype Result<+T> = Ok(value: T) | Err(message: string)

  /** The outcome of one call: it returned `value`, or it aborted. */
  datatype Exec<+T> = Returned(value: T) | Aborted(failure: Failure)
}
