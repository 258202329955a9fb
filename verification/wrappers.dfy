/** Option and error-carrying Result, mirroring the Rust `Option` and the
    crate's `errors::Result`. */
module Wrappers {

  datatype Option<+T> = None | Some(value: T)

  /** How a request ends without success:
      - `RequestError`: the core rejects the request with a message;
      - `IoError`: a file could not be opened or read, with the message the
        coordinator chains onto the failure;
      - `LeasePanic`: the thread panicked indexing field `index` of lease line
        `line`, which ends the request where it stands. */
  datatype ErrorKind =
    | RequestError(msg: string)
    | IoError(msg: string)
    | LeasePanic(line: nat, index: nat)

  datatype Result<+T> = Ok(value: T) | Err(error: ErrorKind)
}
