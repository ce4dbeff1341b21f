/** Error kinds and Go-style results shared by every layer of the account core. */
module Failure {

  /** A value that may be absent: a nil reference, an unset header, a missing fault. */
  datatype Option<T> = None | Some(value: T)

  /** The error taxonomy the account core raises.
      `Internal` stands for every error the failure package does not classify:
      bcrypt, the struct validator, the database driver, the JWT library. */
  datatype Err =
    | BadRequest(msg: string)
    | NotFound
    | Conflict
    | Internal(msg: string)

  /** Go's `(value, err)` return pair. Both constructors carry the value, because
      the source hands back a meaningful value next to a non-nil error (a mutated
      receiver, a resolved but deleted row, a zero value). */
  datatype Result<T> = Ok(value: T) | Fail(value: T, err: Err)
}
