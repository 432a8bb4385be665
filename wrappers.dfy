/** Option and Result, and the Python exceptions the modelled scripts can raise. */
module Wrappers {

  datatype Option<+T> = None | Some(value: T)

  datatype Result<+T, +E> = Ok(value: T) | Err(error: E)

  /** The exceptions that escape the modelled scripts (and end them). */
  datatype PyError =
    | ValueError          // int()/float() of a malformed token, max() of an empty collection
    | IndexError          // a list index past the end (parts[1] of a one-token line)
    | KeyError            // a dict lookup of a missing key
    | TypeError           // formatting None with a numeric format such as `:.2f`
    | ZeroDivisionError   // a division by a zero cycle count
    | FileNotFoundError   // open() of a missing file
    | CalledProcessError(returncode: int)  // subprocess.run(..., check=True) with a non-zero exit
    | SystemExit(message: string)          // raise SystemExit(...)
}
