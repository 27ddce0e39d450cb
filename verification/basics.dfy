/**
 * Small value types shared by every module: an optional value, the bytes the
 * scanner reads from disk, and the outcome of a call into a library that may
 * raise a Python exception.
 */
module Basics {

  datatype Option<+T> = None | Some(value: T)

  newtype Byte = x: int | 0 <= x < 256

  type Bytes = seq<Byte>

  /** A raised exception, as far as the scanner's `except` clauses tell kinds
      apart: `decode_content` catches only `TypeError`, every other handler
      catches `Exception`. `message` is what `str(e)` yields. */
  datatype Exception = TypeError(message: string) | OtherError(message: string)

  /** The result of a library call: a value, or the exception it raised. */
  datatype Outcome<+T> = Ok(value: T) | Raised(exc: Exception)
}
