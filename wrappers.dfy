/** Option, and the outcome of a step of the macro that may panic. */
module Wrappers {

  datatype Option<+T> = None | Some(value: T)

  /** A macro step either produces a value or panics with a message;
      a panic inside a derive macro aborts the expansion of the whole item. */
  datatype Outcome<+T> = Ok(value: T) | Panic(message: string)

  /** Message of `Option::unwrap` on `None`. */
  const UnwrapNone := "called `Option::unwrap()` on a `None` value"

  /** Message of `Result::unwrap` on an `Err` (the error text itself is not modelled). */
  const UnwrapErr := "called `Result::unwrap()` on an `Err` value"
}
