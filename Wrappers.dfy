/** Option and Result: the outcomes of the collaborators (fetches, queries, parsers) this model talks to. */
module Wrappers {

  datatype Option<+T> = None | Some(value: T)

  /** A settled promise: `Ok` when it resolved, `Err` (with the error message) when it rejected. */
  datatype Result<+T> = Ok(value: T) | Err(message: string)
}
