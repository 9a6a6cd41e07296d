/**
 * The gRPC side of the handlers: the status codes they use and the one error
 * mapping they share (a store error becomes Internal with the store's text).
 */
module Responses {
  import opened Wrappers

  /** The two status codes the handlers produce. */
  datatype Code = InvalidArgument | Internal

  /** A handler's answer: a reply, or `status.Error(code, message)`. */
  datatype Response<T> = Ok(value: T) | Err(code: Code, message: string)

  const PresetIdMessage: string := "request is in incorrect format: non-empty ID fields are not allowed."

  /** A store call's outcome as the handlers return it. */
  function StoreResponse<T>(res: Result<T>): Response<T> {
    match res
    case Success(v) => Ok(v)
    case Failure(e) => Err(Internal, e)
  }
}
