/** Requests and responses, and status codes. */
module Messages {
  import opened Types

  type Bytes = seq<Byte>

  type Text = string

  type HeaderMap = map<Text, Text>

  datatype Version = V1

  function VersionNumber(v: Version): nat {
    match v
    case V1 => 1
  }

  function NewVersion(n: nat): Option<Version> {
    if n == 1 then Some(V1) else None
  }

  const CONTENT_TYPE := "content-type"
  const STATUS_MESSAGE := "status-message"
  const TIMEOUT := "timeout"

  datatype StatusCode =
    | Success
    | BadRequest
    | NotFound
    | RequestTimeout
    | TooManyRequests
    | InternalServerError
    | VersionNotSupported
    | Unknown

  function ToU16(s: StatusCode): nat {
    match s
    case Success => 200
    case BadRequest => 400
    case NotFound => 404
    case RequestTimeout => 408
    case TooManyRequests => 429
    case InternalServerError => 500
    case VersionNotSupported => 505
    case Unknown => 520
  }

  function NewStatus(code: nat): Option<StatusCode> {
    match code
    case 200 => Some(Success)
    case 400 => Some(BadRequest)
    case 404 => Some(NotFound)
    case 408 => Some(RequestTimeout)
    case 429 => Some(TooManyRequests)
    case 500 => Some(InternalServerError)
    case 505 => Some(VersionNotSupported)
    case 520 => Some(Unknown)
    case _ => None
  }

  /** Codes and numbers determine each other, and only one code means success. */
  lemma StatusRoundTrip(s: StatusCode)
    ensures forall n: nat :: NewStatus(n) == Some(s) <==> ToU16(s) == n
    ensures NewStatus(ToU16(s)) == Some(s) && ToU16(s) < 0x1_0000
    ensures IsSuccess(s) <==> s == Success
  {
  }

  /** The numbers are those that HTTP gives to codes of these names; 520 is not assigned. */
  lemma StatusNumbers()
    ensures ToU16(Success) == 200 && ToU16(BadRequest) == 400 && ToU16(NotFound) == 404
    ensures ToU16(RequestTimeout) == 408 && ToU16(TooManyRequests) == 429
    ensures ToU16(InternalServerError) == 500 && ToU16(VersionNotSupported) == 505 && ToU16(Unknown) == 520
  {
  }

  predicate IsSuccess(s: StatusCode) {
    200 <= ToU16(s) <= 299
  }

  /** Extensions never travel; of those kept here only the sender's identity matters. */
  datatype Request<+T> =
    Request(route: Text, version: Version, headers: HeaderMap, peer: Option<PeerId>, body: T)

  datatype Response<+T> =
    Response(status: StatusCode, version: Version, headers: HeaderMap, peer: Option<PeerId>, body: T)
}
