/**
  Outcomes shared by every command: an optional value, a result that is
  either a value or one of the errors the commands raise.
*/
module Wrappers {

  datatype Option<+T> = None | Some(value: T)

  /** The exceptions the commands raise, as values. */
  datatype Error =
    /** `ArgumentError`: no arguments, or a start number below 1. */
    | ArgumentError
    /** Existing episode files disagree on the width of their number. */
    | InconsistentNaming
    /** Existing episode numbers are not 1, 2, 3, ...; `found` broke the run. */
    | InconsistentNumbering(expected: int, found: int)
    /** `hashes_for` was asked for an algorithm it does not know. */
    | UnknownDigest(name: string)
    /** A file that was opened or moved does not exist. */
    | FileNotFound(path: string)

  datatype Result<+T> = Ok(value: T) | Err(error: Error)
}
