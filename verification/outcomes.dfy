/** Failure values shared by the pricing modules.  The modelled arithmetic
    fails only where the code divides by zero, which Python reports as
    ZeroDivisionError; the model keeps that as its only error. */
module Outcomes {

  datatype Error = ZeroDivision

  datatype Result<+T> = Ok(value: T) | Err(error: Error)
}
