/** Result and option types, and the error codes an operation can answer with. */
module Wrappers {
  datatype Option<+T> = None | Some(value: T)

  datatype Result<+T, +E> = Ok(value: T) | Err(error: E) {
    predicate IsFailure() {
      Err?
    }

    function PropagateFailure<U>(): Result<U, E>
      requires Err?
    {
      Err(error)
    }

    function Extract(): T
      requires Ok?
    {
      value
    }
  }

  /** The `code` field of an OpError; messages are not modelled. */
  datatype OpError =
    | BadPath
    | BadOp
    | StagingState
    | HashMismatch
    | NotFound
    | AclDenied
    | Untrusted
    | NotMaster
    | Internal
}
