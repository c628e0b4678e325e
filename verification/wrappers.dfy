/** Failure-compatible wrappers used across the model. */
module Wrappers {

  /** An optional value: the model's stand-in for Go's `(value, err)` pairs
      where only success or failure matters. */
  datatype Option<+T> = None | Some(value: T)

  /** A value or an error. */
  datatype Result<+T, +E> = Ok(value: T) | Err(error: E)
}

/** The outcome of running an external command and capturing its standard
    output (Go's `exec.Cmd.Output`). */
module Subprocess {

  datatype Exec<+T> =
    | Ran(stdout: T)          // the command exited with status zero
    | Failed(reason: string)  // it could not start, or exited non-zero
}
