/**
 * The failures a bit array operation can report. The source throws one
 * exception class carrying a message; each distinct message becomes one
 * error kind here, and an operation that can throw returns a Result.
 */
module Errors {

  datatype Error =
    | NegativeSize   // "Negative size of array"
    | EmptyArray     // "Empty array"
    | OutOfIndex     // "Out of index"
    | SizeMismatch   // "Not equal size of arrays"

  datatype Result<+T> = Ok(value: T) | Err(error: Error)
}
