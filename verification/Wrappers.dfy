module Wrappers {
  datatype Option<T> = None | Some(value: T)

  /** The error codes that statements answer with. */
  datatype Error =
    | ValidationError
    | SemanticError
    | TypeMismatch
    | ConstraintViolation
    | NotFound
    | NotImplemented
    | StorageError

  datatype Result<T> = Ok(value: T) | Err(error: Error)
}
