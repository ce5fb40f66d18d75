/** Option and the HTTP-shaped response every controller produces. */
module Wrappers {

  datatype Option<+T> = None | Some(value: T)

  /** A controller's answer: a status with a JSON body on success, or a status with `{ error }`. */
  datatype Response<+T> =
    | Success(status: nat, value: T)
    | Failure(status: nat, error: string)
}
