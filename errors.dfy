/** The exceptions that the modelled code raises, and the values carrying them. */
module Errors {

  datatype Error =
    | NoHeader              // prepare without a header: comma.py:44-47
    | ManualHeaderDisabled  // set_header with includes_header: comma.py:65-68
    | EmptySeparator        // ValueError from str.split("") on a line read from the file
    | IndexOutOfRange       // IndexError from row[i] in to_json: comma.py:81
    | ClosedFile            // ValueError from readline() on the file closed at comma.py:36

  /** The value a Python call returns, or the exception it raises. */
  datatype Result<+T> = Ok(value: T) | Err(error: Error)

  /** A call whose Python counterpart returns None, or the exception it raises. */
  datatype Status = Done | Failed(error: Error)
}
