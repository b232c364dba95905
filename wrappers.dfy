/** Option and Result values used for the actions' optional fields and their
    success/failure responses. */
module Wrappers {

  datatype Option<+T> = None | Some(value: T)

  /** An action response: `Ok` carries the data of a successful response,
      `Err` the reason the action refused the request. */
  datatype Result<+T, +E> = Ok(value: T) | Err(error: E)
}
