/** Option and Result values shared by the other modules. */
module Wrappers {

  datatype Option<T> = None | Some(value: T)

  /** An HTTP error response: status code and the `error` message of its JSON body. */
  datatype ApiError = ApiError(status: int, message: string)

  /** A handler outcome: the JSON payload, or an error response. */
  datatype Result<T> = Ok(value: T) | Err(error: ApiError)
}
