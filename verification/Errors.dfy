/** The result and error kinds shared by every component; message texts are not modelled. */
module Errors {
  datatype VckError =
    | InvalidData
    | ValidationFailed
    | Unsupported
    | NotFound
    | SizeMismatch(expected: nat, actual: nat)
    | SignatureMismatch
    | ChecksumMismatch
    | Io

  datatype Result<+T> = Ok(value: T) | Err(error: VckError)

  datatype Option<+T> = None | Some(value: T)
}
