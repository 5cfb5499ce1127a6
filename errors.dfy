/** Errors raised by the I2C binding, and the result type its operations return. */
module Errors {

  /** The failures a script sees from `read` and `write`. */
  datatype Error =
    | AlreadyClosed      // the handle's bus pointer is null ("I2C device is already closed.")
    | ConversionFailed   // the value's string conversion raised

  /** A value, or nothing when the operation producing it failed. */
  datatype Option<+T> = None | Some(value: T)

  /** A value, or the error that was raised instead of returning it. */
  datatype Result<+T> = Ok(value: T) | Err(error: Error)
}
