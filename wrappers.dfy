/** Option, Result and Outcome: the shapes of Rust's `Option<T>`, `anyhow::Result<T>`
    and `anyhow::Result<()>` used throughout the model. */
module Wrappers {

  datatype Option<+T> = None | Some(value: T)

  /** An `anyhow::Error`, carried as its message. */
  datatype Error = Error(message: string)

  datatype Result<+T> = Success(value: T) | Failure(error: Error)

  /** `anyhow::Result<()>`: an effect that either completed or failed. */
  datatype Outcome = Pass | Fail(error: Error)
}
