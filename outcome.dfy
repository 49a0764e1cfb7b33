/// The error paths of the program: Python raises an exception where a
/// dictionary lookup misses (`KeyError`), a list index is out of range
/// (`IndexError`), an integer division or remainder has divisor zero
/// (`ZeroDivisionError`) or an unpacking finds the wrong number of parts
/// (`ValueError`). The model returns the exception as a value instead.
module Outcome {

  datatype Error = KeyError | IndexError | ZeroDivisionError | ValueError

  datatype Result<T> = Success(value: T) | Failure(error: Error)
}
