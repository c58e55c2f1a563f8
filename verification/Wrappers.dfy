/** Option, and the Result type that stands for the crate's own `Result` with its error kinds. */
module Wrappers {

  datatype Option<+T> = None | Some(value: T)

  /** The crate's `ErrorKind`. `Panic` is not an error value of the source: it marks an
      `unwrap()` on `None`, after which the Rust thread does not return. */
  datatype ErrorKind =
    | DIDNotResolved
    | DIDUrlNotFound
    | SecretNotFound
    | Malformed
    | IoError
    | InvalidState
    | NoCompatibleCrypto
    | Unsupported
    | IllegalArgument
    | TooManyCryptoOperations
    | Panic

  datatype Result<+T> = Ok(value: T) | Err(kind: ErrorKind) {

    predicate IsFailure() {
      Err?
    }

    function PropagateFailure<U>(): Result<U>
      requires Err?
    {
      Err(kind)
    }

    function Extract(): T
      requires Ok?
    {
      value
    }
  }

  /** `opt.ok_or_else(|| err_msg(kind, ..))` */
  function OkOr<T>(o: Option<T>, kind: ErrorKind): Result<T> {
    match o
    case None => Err(kind)
    case Some(v) => Ok(v)
  }

  /** `if condition { Err(err_msg(kind, ..))? }` */
  function Check(condition: bool, kind: ErrorKind): Result<()> {
    if condition then Ok(()) else Err(kind)
  }
}
