/** Shared result types and the error kinds the file-system crates pass around. */
module Wrappers {

  datatype Option<+T> = None | Some(value: T)

  datatype ErrorKind =
    | NotFound
    | AlreadyExists
    | Invalid
    | PermissionDenied
    | NotSupported
    | NotEmpty
    | Closed
    | NotDir
    | IsDir
    | UnexpectedEof
    | Other

  datatype Result<+T> = Ok(value: T) | Err(error: ErrorKind) {

    predicate IsFailure() {
      Err?
    }

    function PropagateFailure<U>(): Result<U>
      requires Err?
    {
      Err(error)
    }

    function Extract(): T
      requires Ok?
    {
      value
    }
  }
}
