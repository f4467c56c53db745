/** Optional values and results shared by the modules of the proxy model. */
module Outcomes {

  datatype Option<T> = None | Some(value: T)

  /** The exception the model raises: a float division by zero (conversion overflows are not modelled). */
  datatype Error = ZeroDivisionError

  datatype Result<T> = Ok(value: T) | Err(error: Error)
}
