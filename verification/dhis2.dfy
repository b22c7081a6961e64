/**
 * The delivery sink (`DHIS2Service.postEvent`) reduced to its outcome: the
 * HTTP exchange is an input, and the call succeeds exactly when the tracker
 * answers with the import status "OK".
 */
module Dhis2 {
  import opened Wrappers
  import opened JsValues

  /** What the tracker endpoint returned: a response body's status, or a failed request. */
  datatype SinkResponse = Responded(status: Value) | RequestFailed(httpStatus: Option<int>)

  /** The part of the response body the integration keeps. */
  datatype ImportResult = ImportResult(status: Value)

  datatype PostError = NonOkStatus(status: Value) | HttpError(httpStatus: Option<int>)

  /** `postEvent(event)`: the response data when its status is "OK", else the error it throws. */
  function PostEvent(response: SinkResponse): (r: Result<ImportResult, PostError>)
    ensures r.Success? <==> response == Responded(Str("OK"))
    ensures r.Success? ==> r.value.status == Str("OK")
  {
    match response
    case Responded(status) =>
      if status == Str("OK") then Success(ImportResult(status)) else Failure(NonOkStatus(status))
    case RequestFailed(code) => Failure(HttpError(code))
  }
}
