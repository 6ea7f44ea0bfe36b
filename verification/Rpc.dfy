/** Unary remote procedure calls: the client side, the server side, and the claim that a
    call over the wire means what calling the service directly means. */
module Rpc {
  import opened Types
  import opened Messages
  import opened Encoding
  import opened Wire

  /** Errors are represented by their text. */
  datatype Codec<!E, D> = Codec(encode: E -> Result<Bytes, Text>, decode: Bytes -> Result<D, Text>, name: Text)

  datatype Status = Status(code: StatusCode, headers: HeaderMap, message: Option<Text>, peer: Option<PeerId>)

  function Get(m: HeaderMap, k: Text): Option<Text> {
    if k in m then Some(m[k]) else None
  }

  function FromError(error: Text): Status {
    Status(Unknown, map[], Some("unknown error: " + error), None)
  }

  function EncodingFailed(error: Text): Status {
    Status(InternalServerError, map[], Some("Error encoding: " + error), None)
  }

  function FromResponse<T>(r: Response<T>): Status {
    Status(r.status, r.headers, Get(r.headers, STATUS_MESSAGE), r.peer)
  }

  function IntoResponse(s: Status): Response<Bytes> {
    var headers := if s.message.Some? then s.headers[STATUS_MESSAGE := s.message.value] else s.headers;
    Response(s.code, V1, headers, None, [])
  }

  // ------------------------------------------------------------------- client

  function ClientUnary<M1, M2>(
    codec: Codec<M1, M2>,
    inner: Request<Bytes> -> Result<Response<Bytes>, Text>,
    request: Request<M1>): Result<Response<M2>, Status>
  {
    match codec.encode(request.body)
    case Err(e) => Err(FromError(e))
    case Ok(body) =>
      var headers := request.headers[CONTENT_TYPE := codec.name];
      match inner(Request(request.route, request.version, headers, request.peer, body))
      case Err(e) => Err(FromError(e))
      case Ok(response) => Outcome(codec, response)
  }

  function Outcome<M1, M2>(codec: Codec<M1, M2>, response: Response<Bytes>): Result<Response<M2>, Status> {
    if !IsSuccess(response.status) then Err(FromResponse(response))
    else
      match codec.decode(response.body)
      case Err(e) => Err(FromError(e))
      case Ok(message) =>
        Ok(Response(response.status, response.version, response.headers, response.peer, message))
  }

  // ------------------------------------------------------------------- server

  function MapRequest<X, M1>(codec: Codec<X, M1>, request: Request<Bytes>): Result<Request<M1>, Status> {
    match codec.decode(request.body)
    case Err(e) => Err(FromError(e))
    case Ok(message) => Ok(Request(request.route, request.version, request.headers, request.peer, message))
  }

  function MapResponse<M2, Y>(codec: Codec<M2, Y>, result: Result<Response<M2>, Status>): Response<Bytes> {
    match result
    case Err(status) => IntoResponse(status)
    case Ok(r) =>
      match codec.encode(r.body)
      case Err(e) => IntoResponse(EncodingFailed(e))
      case Ok(body) => Response(r.status, r.version, r.headers[CONTENT_TYPE := codec.name], r.peer, body)
  }

  function ServerUnary<X, M1, M2, Y>(
    requestCodec: Codec<X, M1>,
    responseCodec: Codec<M2, Y>,
    service: Request<M1> -> Result<Response<M2>, Status>,
    request: Request<Bytes>): Response<Bytes>
  {
    match MapRequest(requestCodec, request)
    case Err(status) => MapResponse(responseCodec, Err(status))
    case Ok(r) => MapResponse(responseCodec, service(r))
  }

  // --------------------------------------------------------------- connection

  /** Two connected peers, their frame limits, and the order in which maps are listed. */
  datatype Link = Link(caller: PeerId, callee: PeerId, callerLimit: nat, calleeLimit: nat, listing: HeaderMap -> Pairs)

  ghost predicate WellFormed(link: Link) {
    && link.callerLimit < U32_LIMIT && link.calleeLimit < U32_LIMIT
    && forall m :: Enumerates(link.listing(m), m)
  }

  /** Stands for whatever a failed transport reports. */
  const LOST := "connection lost"

  /** A request is written, read and handled at the other end, and the response written
      and read back. Either reader knows who is at the other end of the connection. */
  function Transport(link: Link, handler: Request<Bytes> -> Response<Bytes>,
                     request: Request<Bytes>): Result<Response<Bytes>, Text>
  {
    match CarryRequest(link.callerLimit, link.calleeLimit, request, link.listing(request.headers))
    case None => Err(LOST)
    case Some(received) => Reply(link, handler(received.(peer := Some(link.caller))))
  }

  function Reply(link: Link, response: Response<Bytes>): Result<Response<Bytes>, Text> {
    match CarryResponse(link.calleeLimit, link.callerLimit, response, link.listing(response.headers))
    case None => Err(LOST)
    case Some(received) => Ok(received.(peer := Some(link.callee)))
  }

  predicate RequestFits(link: Link, r: Request<Bytes>) {
    var header := RequestHeader(r.route, link.listing(r.headers));
    Fits(link.callerLimit, header, r.body) && Fits(link.calleeLimit, header, r.body)
  }

  predicate ResponseFits(link: Link, r: Response<Bytes>) {
    var header := ResponseHeader(r.status, link.listing(r.headers));
    Fits(link.callerLimit, header, r.body) && Fits(link.calleeLimit, header, r.body)
  }

  /** A response arrives exactly if it fits both limits. */
  lemma ReplyArrives(link: Link, r: Response<Bytes>)
    requires WellFormed(link)
    ensures Reply(link, r) == if ResponseFits(link, r) then Ok(r.(peer := Some(link.callee))) else Err(LOST)
  {
    ResponseIsCarried(link.calleeLimit, link.callerLimit, r, link.listing(r.headers));
  }

  /** The handler sees the request exactly if it fits both limits. */
  lemma RequestArrives(link: Link, handler: Request<Bytes> -> Response<Bytes>, r: Request<Bytes>)
    requires WellFormed(link)
    ensures Transport(link, handler, r) ==
            if RequestFits(link, r) then Reply(link, handler(r.(peer := Some(link.caller)))) else Err(LOST)
  {
    RequestIsCarried(link.callerLimit, link.calleeLimit, r, link.listing(r.headers));
  }

  // ------------------------------------------------------------- main results

  /** Both ends of a call: codecs, and the service that is called. */
  datatype Method<!M1, !M2> = Method(
    codec: Codec<M1, M2>,
    requestCodec: Codec<M1, M1>,
    responseCodec: Codec<M2, M2>,
    service: Request<M1> -> Result<Response<M2>, Status>)

  function Serving<M1, M2>(m: Method<M1, M2>): Request<Bytes> -> Response<Bytes> {
    r => ServerUnary(m.requestCodec, m.responseCodec, m.service, r)
  }

  function Calling(link: Link, handler: Request<Bytes> -> Response<Bytes>): Request<Bytes> -> Result<Response<Bytes>,
                   Text>
  {
    r => Transport(link, handler, r)
  }

  function RemoteCall<M1, M2>(link: Link, m: Method<M1, M2>, request: Request<M1>): Result<Response<M2>, Status> {
    ClientUnary(m.codec, Calling(link, Serving(m)), request)
  }

  /** What the service sees of a request: the same, with the content type and the caller. */
  function Received<T>(link: Link, name: Text, request: Request<T>): Request<T> {
    request.(headers := request.headers[CONTENT_TYPE := name], peer := Some(link.caller))
  }

  /** What the caller sees of the service's result. A response comes back unchanged but
      for the content type and the peer, as an error if its status is not a success. An
      error comes back with its code, its headers and its message. Only an error that
      carries a success code is mistaken for a response, with an empty body. */
  function Seen<T>(link: Link, name: Text, decode: Bytes -> Result<T, Text>,
                   result: Result<Response<T>, Status>): Result<Response<T>, Status>
  {
    match result
    case Ok(r) =>
      var headers := r.headers[CONTENT_TYPE := name];
      if IsSuccess(r.status) then Ok(r.(headers := headers, peer := Some(link.callee)))
      else Err(Status(r.status, headers, Get(headers, STATUS_MESSAGE), Some(link.callee)))
    case Err(s) =>
      var headers := if s.message.Some? then s.headers[STATUS_MESSAGE := s.message.value] else s.headers;
      var message := if s.message.Some? then s.message else Get(s.headers, STATUS_MESSAGE);
      if !IsSuccess(s.code) then Err(Status(s.code, headers, message, Some(link.callee)))
      else match decode([])
        case Ok(empty) => Ok(Response(s.code, V1, headers, Some(link.callee), empty))
        case Err(e) => Err(FromError(e))
  }

  /** The server's codec understands the request, and the client's the response. */
  ghost predicate CodecsAgree<M1, M2>(m: Method<M1, M2>, request: Request<M1>, result: Result<Response<M2>, Status>) {
    && m.codec.encode(request.body).Ok?
    && m.requestCodec.decode(m.codec.encode(request.body).value) == Ok(request.body)
    && (result.Ok? ==>
          && m.responseCodec.encode(result.value.body).Ok?
          && m.codec.decode(m.responseCodec.encode(result.value.body).value) == Ok(result.value.body))
  }

  function Encoded<M1, M2>(m: Method<M1, M2>, request: Request<M1>): Request<Bytes>
    requires m.codec.encode(request.body).Ok?
  {
    Request(request.route, request.version, request.headers[CONTENT_TYPE := m.codec.name],
            request.peer, m.codec.encode(request.body).value)
  }

  ghost predicate CallFits<M1, M2>(link: Link, m: Method<M1, M2>, request: Request<M1>)
    requires m.codec.encode(request.body).Ok?
  {
    && RequestFits(link, Encoded(m, request))
    && ResponseFits(link, MapResponse(m.responseCodec, m.service(Received(link, m.codec.name, request))))
  }

  lemma ServingMeansCalling<M1, M2>(link: Link, m: Method<M1, M2>, request: Request<M1>)
    requires CodecsAgree(m, request, m.service(Received(link, m.codec.name, request)))
    ensures Serving(m)(Encoded(m, request).(peer := Some(link.caller)))
            == MapResponse(m.responseCodec, m.service(Received(link, m.codec.name, request)))
  {
  }

  /** Whatever carries the call, if it delivers the service's response then the caller sees
      the service's result. */
  lemma DeliveredMeansSeen<M1, M2>(
    link: Link, m: Method<M1, M2>, inner: Request<Bytes> -> Result<Response<Bytes>, Text>,
    request: Request<M1>, result: Result<Response<M2>, Status>)
    requires CodecsAgree(m, request, result)
    requires inner(Encoded(m, request)) == Ok(MapResponse(m.responseCodec, result).(peer := Some(link.callee)))
    ensures ClientUnary(m.codec, inner, request) == Seen(link, m.responseCodec.name, m.codec.decode, result)
  {
    var response := MapResponse(m.responseCodec, result).(peer := Some(link.callee));
    assert ClientUnary(m.codec, inner, request) == Outcome(m.codec, response);
    OutcomeIsSeen(link, m, result, response);
  }

  lemma OutcomeIsSeen<M1, M2>(link: Link, m: Method<M1, M2>, result: Result<Response<M2>, Status>,
                              response: Response<Bytes>)
    requires result.Ok? ==>
               && m.responseCodec.encode(result.value.body).Ok?
               && m.codec.decode(m.responseCodec.encode(result.value.body).value) == Ok(result.value.body)
    requires response == MapResponse(m.responseCodec, result).(peer := Some(link.callee))
    ensures Outcome(m.codec, response) == Seen(link, m.responseCodec.name, m.codec.decode, result)
  {
    if result.Ok? {
      assert Outcome(m.codec, response) == Seen(link, m.responseCodec.name, m.codec.decode, result);
    } else {
      ErrorIsSeen(link, m, result.error, response);
    }
  }

  lemma ErrorIsSeen<M1, M2>(link: Link, m: Method<M1, M2>, status: Status, response: Response<Bytes>)
    requires response == IntoResponse(status).(peer := Some(link.callee))
    ensures Outcome(m.codec, response) == Seen(link, m.responseCodec.name, m.codec.decode, Err(status))
  {
    if IsSuccess(status.code) {
      assert Outcome(m.codec, response) == Seen(link, m.responseCodec.name, m.codec.decode, Err(status));
    } else if status.message.Some? {
      assert Outcome(m.codec, response) == Seen(link, m.responseCodec.name, m.codec.decode, Err(status));
    }
  }

  lemma CallingDelivers(link: Link, handler: Request<Bytes> -> Response<Bytes>, sent: Request<Bytes>,
                        response: Response<Bytes>)
    requires WellFormed(link) && RequestFits(link, sent) && ResponseFits(link, response)
    requires handler(sent.(peer := Some(link.caller))) == response
    ensures Calling(link, handler)(sent) == Ok(response.(peer := Some(link.callee)))
  {
    RequestArrives(link, handler, sent);
    ReplyArrives(link, response);
  }

  lemma LostCall<M1, M2>(link: Link, m: Method<M1, M2>, request: Request<M1>)
    requires WellFormed(link)
    requires CodecsAgree(m, request, m.service(Received(link, m.codec.name, request)))
    requires !CallFits(link, m, request)
    ensures RemoteCall(link, m, request) == Err(FromError(LOST))
  {
    ServingMeansCalling(link, m, request);
    RequestArrives(link, Serving(m), Encoded(m, request));
    ReplyArrives(link, MapResponse(m.responseCodec, m.service(Received(link, m.codec.name, request))));
  }

  /** A remote call means the same as the local one, exactly if request and response fit the
      frame limits; else the caller is told that the call was lost. */
  lemma RemoteCallMeansLocalCall<M1, M2>(link: Link, m: Method<M1, M2>, request: Request<M1>)
    requires WellFormed(link)
    requires CodecsAgree(m, request, m.service(Received(link, m.codec.name, request)))
    ensures RemoteCall(link, m, request) ==
            if CallFits(link, m, request)
            then Seen(link, m.responseCodec.name, m.codec.decode, m.service(Received(link, m.codec.name, request)))
            else Err(FromError(LOST))
  {
    var result := m.service(Received(link, m.codec.name, request));
    if CallFits(link, m, request) {
      ServingMeansCalling(link, m, request);
      CallingDelivers(link, Serving(m), Encoded(m, request), MapResponse(m.responseCodec, result));
      DeliveredMeansSeen(link, m, Calling(link, Serving(m)), request, result);
    } else {
      LostCall(link, m, request);
    }
  }

  lemma SeenErrorCode<T>(link: Link, name: Text, decode: Bytes -> Result<T, Text>, status: Status)
    ensures var seen := Seen(link, name, decode, Err(status));
            && (seen.Err? && seen.error.code == status.code <==> !IsSuccess(status.code))
            && (!IsSuccess(status.code) && status.message.Some? ==> seen.error.message == status.message)
  {
  }

  /** An error of the service arrives as an error with the same code exactly if that code
      does not mean success, provided that the call fits; a lost call always has the code
      Unknown. */
  lemma ErrorSurvivesExactlyIfNotSuccess<M1, M2>(link: Link, m: Method<M1, M2>, request: Request<M1>)
    requires WellFormed(link)
    requires CodecsAgree(m, request, m.service(Received(link, m.codec.name, request)))
    ensures var result := m.service(Received(link, m.codec.name, request));
            var seen := RemoteCall(link, m, request);
            result.Err? ==>
              && (seen.Err? && seen.error.code == result.error.code <==>
                    if CallFits(link, m, request) then !IsSuccess(result.error.code) else result.error.code == Unknown)
              && (CallFits(link, m, request) && !IsSuccess(result.error.code) && result.error.message.Some? ==>
                    seen.error.message == result.error.message)
  {
    RemoteCallMeansLocalCall(link, m, request);
    var result := m.service(Received(link, m.codec.name, request));
    if result.Err? {
      SeenErrorCode(link, m.responseCodec.name, m.codec.decode, result.error);
    }
  }

  // ------------------------------------------------- calls whose codecs may fail

  /** A response that carries an explanation instead of a body. */
  function Explained(code: StatusCode, text: Text): Response<Bytes> {
    Response(code, V1, map[STATUS_MESSAGE := text], None, [])
  }

  /** What the server answers: the service's result, or which codec failed. */
  function Answered<M1, M2>(m: Method<M1, M2>, received: Request<Bytes>): Response<Bytes> {
    match m.requestCodec.decode(received.body)
    case Err(e) => Explained(Unknown, "unknown error: " + e)
    case Ok(message) =>
      match m.service(Request(received.route, received.version, received.headers, received.peer, message))
      case Err(s) =>
        var headers := if s.message.Some? then s.headers[STATUS_MESSAGE := s.message.value] else s.headers;
        Response(s.code, V1, headers, None, [])
      case Ok(r) =>
        match m.responseCodec.encode(r.body)
        case Err(e) => Explained(InternalServerError, "Error encoding: " + e)
        case Ok(bytes) => Response(r.status, r.version, r.headers[CONTENT_TYPE := m.responseCodec.name], r.peer, bytes)
  }

  function LocalFailure<T>(text: Text): Result<Response<T>, Status> {
    Err(Status(Unknown, map[], Some("unknown error: " + text), None))
  }

  /** What a call comes to, whatever its codecs do and whether or not it fits. */
  function Meaning<M1, M2>(link: Link, m: Method<M1, M2>, request: Request<M1>): Result<Response<M2>, Status> {
    if m.codec.encode(request.body).Err? then LocalFailure(m.codec.encode(request.body).error)
    else
      var sent := Encoded(m, request);
      var answer := Answered(m, sent.(peer := Some(link.caller)));
      if !RequestFits(link, sent) || !ResponseFits(link, answer) then LocalFailure(LOST)
      else if answer.status != Success then
        var message := if STATUS_MESSAGE in answer.headers then Some(answer.headers[STATUS_MESSAGE]) else None;
        Err(Status(answer.status, answer.headers, message, Some(link.callee)))
      else
        match m.codec.decode(answer.body)
        case Err(e) => LocalFailure(e)
        case Ok(body) => Ok(Response(Success, answer.version, answer.headers, Some(link.callee), body))
  }

  lemma ServingIsAnswering<M1, M2>(m: Method<M1, M2>, received: Request<Bytes>)
    ensures Serving(m)(received) == Answered(m, received)
  {
    match m.requestCodec.decode(received.body)
    case Err(e) =>
      assert map[][STATUS_MESSAGE := "unknown error: " + e] == map[STATUS_MESSAGE := "unknown error: " + e];
    case Ok(message) =>
      match m.service(Request(received.route, received.version, received.headers, received.peer, message))
      case Err(s) =>
      case Ok(r) =>
        match m.responseCodec.encode(r.body)
        case Err(e) =>
          assert map[][STATUS_MESSAGE := "Error encoding: " + e] == map[STATUS_MESSAGE := "Error encoding: " + e];
        case Ok(bytes) =>
  }

  /** Every call over the wire comes to that, without any assumption on codecs or sizes. */
  lemma RemoteCallMeaning<M1, M2>(link: Link, m: Method<M1, M2>, request: Request<M1>)
    requires WellFormed(link)
    ensures RemoteCall(link, m, request) == Meaning(link, m, request)
  {
    if m.codec.encode(request.body).Ok? {
      var sent := Encoded(m, request);
      var answer := Answered(m, sent.(peer := Some(link.caller)));
      RequestArrives(link, Serving(m), sent);
      ServingIsAnswering(m, sent.(peer := Some(link.caller)));
      ReplyArrives(link, answer);
      StatusRoundTrip(answer.status);
    }
  }

  /** Which codec failed is what the caller is told: its own as an unknown error without
      headers or peer, the server's decoder as an unknown error, the server's encoder as an
      internal one, each with the text of the error in front of it. */
  lemma CodecFailuresAreReported<M1, M2>(link: Link, m: Method<M1, M2>, request: Request<M1>)
    requires WellFormed(link)
    ensures m.codec.encode(request.body).Err? ==>
              RemoteCall(link, m, request) ==
              Err(Status(Unknown, map[], Some("unknown error: " + m.codec.encode(request.body).error), None))
    ensures m.codec.encode(request.body).Ok? && RequestFits(link, Encoded(m, request)) ==>
              match m.requestCodec.decode(m.codec.encode(request.body).value)
              case Err(e) =>
                var text := "unknown error: " + e;
                ResponseFits(link, Explained(Unknown, text)) ==>
                  RemoteCall(link, m, request) ==
                  Err(Status(Unknown, map[STATUS_MESSAGE := text], Some(text), Some(link.callee)))
              case Ok(message) =>
                var result := m.service(Received(link, m.codec.name, request.(body := message)));
                result.Ok? ==>
                  match m.responseCodec.encode(result.value.body)
                  case Err(e) =>
                    var text := "Error encoding: " + e;
                    ResponseFits(link, Explained(InternalServerError, text)) ==>
                      RemoteCall(link, m, request) ==
                      Err(Status(InternalServerError, map[STATUS_MESSAGE := text], Some(text), Some(link.callee)))
                  case Ok(bytes) =>
                    var headers := result.value.headers[CONTENT_TYPE := m.responseCodec.name];
                    ResponseFits(link, Response(result.value.status, result.value.version, headers, None, bytes))
                    && result.value.status == Success && m.codec.decode(bytes).Err? ==>
                      RemoteCall(link, m, request) ==
                      Err(Status(Unknown, map[], Some("unknown error: " + m.codec.decode(bytes).error), None))
  {
    RemoteCallMeaning(link, m, request);
  }

  /** Bodies that are bytes already, and a service that fails with a success code. */
  function PlainCodec(): Codec<Bytes, Bytes> {
    Codec((b: Bytes) => Ok(b), (b: Bytes) => Ok(b), "plain")
  }

  function Contradictory(): Method<Bytes, Bytes> {
    Method(PlainCodec(), PlainCodec(), PlainCodec(), (r: Request<Bytes>) => Err(Status(Success, map[], None, None)))
  }

  /** The caller takes that error for a response with an empty body. */
  lemma SuccessErrorIsMistaken(link: Link, request: Request<Bytes>)
    requires WellFormed(link) && CallFits(link, Contradictory(), request)
    ensures RemoteCall(link, Contradictory(), request) == Ok(Response(Success, V1, map[], Some(link.callee), []))
  {
    RemoteCallMeansLocalCall(link, Contradictory(), request);
  }
}
