/**
 * The util status codes the client reports, and the mapping from an HTTP
 * response of the store to such a status.
 */
module EtcdStatus {
  import opened Json
  import opened Wrappers

  datatype Code =
    | OK | CANCELLED | UNKNOWN | INVALID_ARGUMENT | DEADLINE_EXCEEDED | NOT_FOUND
    | ALREADY_EXISTS | PERMISSION_DENIED | RESOURCE_EXHAUSTED | FAILED_PRECONDITION
    | ABORTED | OUT_OF_RANGE | UNIMPLEMENTED | INTERNAL | UNAVAILABLE | DATA_LOSS

  datatype Status = Status(code: Code, message: string) {
    predicate IsOk() { code == OK }
  }

  const OkStatus := Status(OK, "")
  const CancelledStatus := Status(CANCELLED, "")

  /** A value or the status that explains why there is none. */
  datatype StatusOr<+T> = Value(value: T) | Error(status: Status)

  /** The store's HTTP status codes and what each one means to a caller. */
  function ErrorCodeForHttpResponseCode(responseCode: int): (c: Code)
    ensures c == OK <==> responseCode == 200 || responseCode == 201
    ensures c == PERMISSION_DENIED <==> responseCode == 403
    ensures c == NOT_FOUND <==> responseCode == 404
    ensures c == FAILED_PRECONDITION <==> responseCode == 412
    ensures c == UNAVAILABLE <==> responseCode == 500
    ensures c in {OK, PERMISSION_DENIED, NOT_FOUND, FAILED_PRECONDITION, UNAVAILABLE, UNKNOWN}
  {
    match responseCode
    case 200 => OK
    case 201 => OK
    case 403 => PERMISSION_DENIED
    case 404 => NOT_FOUND
    case 412 => FAILED_PRECONDITION
    case 500 => UNAVAILABLE
    case _ => UNKNOWN
  }

  /**
   * The human-readable message of a failed response: the body's string
   * member `message`, else the JSON library's rendering `bodyText` of the
   * whole body.
   */
  function MessageFromJsonStatus(body: Json, bodyText: string): (m: string)
    ensures GetString(body, "message").Some? ==> m == GetString(body, "message").value
    ensures GetString(body, "message").None? ==> m == bodyText
  {
    GetString(body, "message").GetOr(bodyText)
  }

  function StatusFromResponseCode(responseCode: int, body: Json, bodyText: string): (s: Status)
    ensures s.code == ErrorCodeForHttpResponseCode(responseCode)
    ensures s.IsOk() ==> s.message == ""
    ensures !s.IsOk() ==> s.message == MessageFromJsonStatus(body, bodyText)
  {
    var code := ErrorCodeForHttpResponseCode(responseCode);
    Status(code, if code == OK then "" else MessageFromJsonStatus(body, bodyText))
  }

  /** A success response always carries the empty message, whatever its body. */
  lemma OkStatusIgnoresBody(responseCode: int, b1: Json, t1: string, b2: Json, t2: string)
    requires responseCode == 200 || responseCode == 201
    ensures StatusFromResponseCode(responseCode, b1, t1) == StatusFromResponseCode(responseCode, b2, t2) == OkStatus
  {
  }
}
