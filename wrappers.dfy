/** Failure-carrying results used where the modelled code panics or exits. */
module Wrappers {

  datatype Option<+T> = None | Some(value: T)

  /** `Err` stands for a Rust panic or a process exit: the run stops there. */
  datatype Result<+T, +E> = Ok(value: T) | Err(error: E)
}
