/** Failure-carrying wrappers shared by every stage of the pipeline. */
module Outcomes {

  /** An optional value, the counterpart of Rust's `Option`. */
  datatype Option<+T> = None | Some(value: T)

  /** A value or an error, the counterpart of Rust's `Result`. The model also
      uses it for the places where the program panics (`todo!()`, an index out
      of bounds, an arithmetic overflow), so that the panic is an observable
      outcome rather than a precondition. */
  datatype Result<+T, +E> = Ok(value: T) | Err(error: E)
}
