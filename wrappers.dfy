/** Option and Result, the shapes used for absent request fields and for failures. */
module Wrappers {

  datatype Option<+T> = None | Some(value: T)

  datatype Result<+R, +E> = Success(value: R) | Failure(error: E)
}

/** The error responses the request handlers produce. */
module Responses {

  datatype Failure =
    | BadRequest                   // 400: a required request field is missing or too short
    | NotFound                     // 404: a search over an empty sentence store
    | ServerError(detail: string)  // 500: the message of an exception raised inside the handler
}
