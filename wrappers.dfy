/** Failure-carrying values used where the Python code either returns normally
    or raises: `Ok(v)` for a normal return, `Err(msg)` for an exception whose
    `str()` is `msg`. */
module Wrappers {

  datatype Option<+T> = None | Some(value: T)

  datatype Result<+T> = Ok(value: T) | Err(error: string)

  /** A call that returns nothing on success (`None` in Python) or raises. */
  datatype Outcome = Done | Raised(error: string)
}
