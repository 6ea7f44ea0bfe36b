/** The wire format of requests and responses: a version frame, then the serialized
    header and the body, each in a length-delimited frame. Written to and read from
    byte streams step by step. */
module Wire {
  import opened Types
  import opened Messages
  import opened Encoding
  import Utf8

  const ANEMO: Bytes := [0x61, 0x6E, 0x65, 0x6D, 0x6F]

  // ---------------------------------------------------------- what is written

  function VersionFrame(v: Version): Bytes {
    ANEMO + BigEndian(VersionNumber(v), 2) + [0]
  }

  function TakeVersion(b: Bytes): Parsed<Version> {
    if |b| < 8 then Err(UnexpectedEof)
    else if b[..5] != ANEMO || b[7] != 0 then Err(InvalidProtocolHeader)
    else
      var number := FromBigEndian(b[5..7]);
      if NewVersion(number).None? then Err(InvalidVersion(number)) else Ok((NewVersion(number).value, b[8..]))
  }

  function RequestHeader(route: Text, pairs: Pairs): Bytes {
    PutText(route) + PutHeaders(pairs)
  }

  function ResponseHeader(status: StatusCode, pairs: Pairs): Bytes {
    LittleEndian(ToU16(status), 2) + PutHeaders(pairs)
  }

  /** What is on the wire once a message has been written, or as much of it as was
      written when a frame turned out to exceed the limit. */
  function Written(limit: nat, v: Version, header: Bytes, body: Bytes): (bool, Bytes) {
    if |header| > limit then (false, VersionFrame(v))
    else if |body| > limit then (false, VersionFrame(v) + PutFrame(header))
    else (true, VersionFrame(v) + PutFrame(header) + PutFrame(body))
  }

  // ------------------------------------------------------------- what is read

  function ParseRequest(limit: nat, b: Bytes): Parsed<Request<Bytes>> {
    var (v, b) :- TakeVersion(b);
    var (header, b) :- TakeFrame(limit, b);
    var (route, h) :- TakeText(header);
    var (headers, _) :- TakeHeaders(h);
    var (body, b) :- TakeFrame(limit, b);
    Ok((Request(route, v, headers, None, body), b))
  }

  function ParseResponse(limit: nat, b: Bytes): Parsed<Response<Bytes>> {
    var (v, b) :- TakeVersion(b);
    var (header, b) :- TakeFrame(limit, b);
    var (code, h) :- TakeU16(header);
    var (headers, _) :- TakeHeaders(h);
    if NewStatus(code).None? then Err(InvalidStatus(code))
    else
      var (body, b) :- TakeFrame(limit, b);
      Ok((Response(NewStatus(code).value, v, headers, None, body), b))
  }

  // ------------------------------------------------------------- round trips

  lemma VersionRoundTrip(v: Version, rest: Bytes)
    ensures TakeVersion(VersionFrame(v) + rest) == Ok((v, rest))
  {
    var b := VersionFrame(v) + rest;
    Widths();
    BigEndianRoundTrip(VersionNumber(v), 2);
    assert b[..5] == ANEMO && b[5..7] == BigEndian(VersionNumber(v), 2) && b[7] == 0 && b[8..] == rest;
  }

  /** A version frame is accepted exactly if it consists of the five letters of the protocol,
      the number 1 and a zero; of anything else at least eight bytes long, what comes after the
      right letters and before a zero is reported as the version. */
  lemma VersionIsGenuine(b: Bytes)
    ensures TakeVersion(b).Ok? <==> |b| >= 8 && b[..8] == [0x61, 0x6E, 0x65, 0x6D, 0x6F, 0, 1, 0]
    ensures TakeVersion(b).Ok? ==> b == VersionFrame(TakeVersion(b).value.0) + TakeVersion(b).value.1
    ensures TakeVersion(b).Err? ==>
              TakeVersion(b).error ==
              if |b| < 8 then UnexpectedEof
              else if b[..5] != [0x61, 0x6E, 0x65, 0x6D, 0x6F] || b[7] != 0 then InvalidProtocolHeader
              else InvalidVersion(0x100 * b[5] as nat + b[6] as nat)
  {
    if |b| >= 8 {
      TwoBytes(b[5..7]);
      assert b[..8] == b[..5] + b[5..7] + [b[7]];
      assert b == b[..8] + b[8..];
      assert BigEndian(1, 1) == [1] && BigEndian(1, 2) == [0, 1];
      assert VersionFrame(V1) == [0x61, 0x6E, 0x65, 0x6D, 0x6F, 0, 1, 0];
    }
  }

  lemma TwoBytes(b: Bytes)
    requires |b| == 2
    ensures FromBigEndian(b) == 0x100 * b[0] as nat + b[1] as nat
    ensures FromBigEndian(b) == 1 <==> b == [0, 1]
  {
    assert b[..1][..0] == [];
    assert FromBigEndian(b[..1]) == b[0] as nat;
  }

  // ------------------------------------------------------------ byte by byte

  /** From `at` on, a number in four bytes, greatest first. */
  ghost predicate HasBigEndian(b: Bytes, at: nat, n: nat) {
    at + 4 <= |b| && forall i :: 0 <= i < 4 ==> b[at + 3 - i] as nat == n / Pow256(i) % 0x100
  }

  /** From `at` on, a number in eight bytes, least first. */
  ghost predicate HasLittleEndian(b: Bytes, at: nat, n: nat) {
    at + 8 <= |b| && forall i :: 0 <= i < 8 ==> b[at + i] as nat == n / Pow256(i) % 0x100
  }

  ghost predicate HasBytes(b: Bytes, at: nat, part: Bytes) {
    at + |part| <= |b| && b[at..at + |part|] == part
  }

  lemma FrameLayout(before: Bytes, payload: Bytes, after: Bytes)
    ensures var b := before + PutFrame(payload) + after;
            && HasBigEndian(b, |before|, |payload|) && HasBytes(b, |before| + 4, payload)
            && |b| == |before| + 4 + |payload| + |after|
  {
    var b := before + PutFrame(payload) + after;
    forall i | 0 <= i < 4 ensures b[|before| + 3 - i] as nat == |payload| / Pow256(i) % 0x100 {
      BigEndianAt(|payload|, 4, i);
    }
  }

  lemma CountLayout(before: Bytes, n: nat, after: Bytes)
    ensures HasLittleEndian(before + LittleEndian(n, 8) + after, |before|, n)
  {
    var b := before + LittleEndian(n, 8) + after;
    forall i | 0 <= i < 8 ensures b[|before| + i] as nat == n / Pow256(i) % 0x100 {
      LittleEndianAt(n, 8, i);
    }
  }

  /** A message on the wire, byte by byte: eight bytes for the version, then the header and
      the body, each after its length. */
  lemma MessageLayout(limit: nat, v: Version, header: Bytes, body: Bytes)
    requires Written(limit, v, header, body).0
    ensures var b := Written(limit, v, header, body).1;
            && |b| == 16 + |header| + |body|
            && HasBytes(b, 0, [0x61, 0x6E, 0x65, 0x6D, 0x6F, 0, 1, 0])
            && HasBigEndian(b, 8, |header|) && HasBytes(b, 12, header)
            && HasBigEndian(b, 12 + |header|, |body|) && HasBytes(b, 16 + |header|, body)
  {
    VersionIsGenuine(VersionFrame(v));
    VersionRoundTrip(v, []);
    NothingLeft(VersionFrame(v));
    FrameLayout(VersionFrame(v), header, PutFrame(body));
    FrameLayout(VersionFrame(v) + PutFrame(header), body, []);
    NothingLeft(VersionFrame(v) + PutFrame(header) + PutFrame(body));
  }

  /** The header of a request begins with the route in UTF-8 after its length, and the number
      of its headers. */
  lemma RequestHeaderLayout(route: Text, pairs: Pairs)
    ensures var b, n := RequestHeader(route, pairs), |Utf8.Encode(route)|;
            && HasLittleEndian(b, 0, n) && HasBytes(b, 8, Utf8.Encode(route)) && HasLittleEndian(b, 8 + n, |pairs|)
            && b[16 + n..] == PutPairs(pairs)
  {
    RequestParts(LittleEndian(|Utf8.Encode(route)|, 8), Utf8.Encode(route), LittleEndian(|pairs|, 8), PutPairs(pairs));
    CountLayout([], |Utf8.Encode(route)|, Utf8.Encode(route) + PutHeaders(pairs));
    CountLayout(PutText(route), |pairs|, PutPairs(pairs));
  }

  /** The four parts of a request's header, and where two of them begin. */
  lemma RequestParts(n: Bytes, route: Bytes, k: Bytes, rest: Bytes)
    requires |n| == 8 && |k| == 8
    ensures var b := (n + route) + (k + rest);
            && b == [] + n + (route + (k + rest)) && b == (n + route) + k + rest
            && HasBytes(b, 8, route) && b[16 + |route|..] == rest
  {
  }

  /** That of a response begins with the status in two bytes, least first, and the number of
      its headers. */
  lemma ResponseHeaderLayout(status: StatusCode, pairs: Pairs)
    ensures var b := ResponseHeader(status, pairs);
            && |b| >= 10 && b[0] as nat == ToU16(status) % 0x100 && b[1] as nat == ToU16(status) / 0x100
            && HasLittleEndian(b, 2, |pairs|) && b[10..] == PutPairs(pairs)
  {
    var rest := PutPairs(pairs);
    TwoLittleBytes(ToU16(status));
    CountLayout(LittleEndian(ToU16(status), 2), |pairs|, rest);
    assert ResponseHeader(status, pairs) == LittleEndian(ToU16(status), 2) + LittleEndian(|pairs|, 8) + rest;
  }

  lemma TwoLittleBytes(n: nat)
    requires n < 0x1_0000
    ensures LittleEndian(n, 2)[0] as nat == n % 0x100 && LittleEndian(n, 2)[1] as nat == n / 0x100
  {
    assert LittleEndian(n / 0x100, 1) == [(n / 0x100) as Byte];
  }

  lemma {:induction false} PairsAreShort(pairs: Pairs)
    requires |PutPairs(pairs)| < U64_LIMIT
    ensures Short(pairs) && |pairs| <= |PutPairs(pairs)|
  {
    if pairs == [] {
    } else {
      PairsAreShort(pairs[1..]);
      forall i | 0 <= i < |pairs|
        ensures |Utf8.Encode(pairs[i].0)| < U64_LIMIT && |Utf8.Encode(pairs[i].1)| < U64_LIMIT
      {
        if i > 0 { assert pairs[i] == pairs[1..][i - 1]; }
      }
    }
  }

  lemma RequestHeaderRoundTrip(route: Text, pairs: Pairs)
    requires |RequestHeader(route, pairs)| < U32_LIMIT
    ensures TakeText(RequestHeader(route, pairs)) == Ok((route, PutHeaders(pairs)))
    ensures TakeHeaders(PutHeaders(pairs)) == Ok((InsertPairs(map[], pairs), []))
  {
    PairsAreShort(pairs);
    TakeTextUndoes(route, PutHeaders(pairs));
    TakeHeadersUndoes(pairs, []);
    assert PutHeaders(pairs) + [] == PutHeaders(pairs);
  }

  lemma ResponseHeaderRoundTrip(status: StatusCode, pairs: Pairs)
    requires |ResponseHeader(status, pairs)| < U32_LIMIT
    ensures TakeU16(ResponseHeader(status, pairs)) == Ok((ToU16(status), PutHeaders(pairs)))
    ensures TakeHeaders(PutHeaders(pairs)) == Ok((InsertPairs(map[], pairs), []))
  {
    PairsAreShort(pairs);
    StatusRoundTrip(status);
    TakeU16Undoes(ToU16(status), PutHeaders(pairs));
    TakeHeadersUndoes(pairs, []);
    assert PutHeaders(pairs) + [] == PutHeaders(pairs);
  }

  /** The steps of reading back what was written, for either kind of message. */
  lemma StepsRoundTrip(writeLimit: nat, readLimit: nat, v: Version, header: Bytes, body: Bytes, rest: Bytes)
    requires writeLimit < U32_LIMIT && Written(writeLimit, v, header, body).0
    ensures var afterHeader := PutFrame(body) + rest;
            var afterVersion := PutFrame(header) + afterHeader;
            && TakeVersion(Written(writeLimit, v, header, body).1 + rest) == Ok((v, afterVersion))
            && TakeFrame(readLimit, afterVersion) ==
               (if |header| <= readLimit then Ok((header, afterHeader)) else Err(FrameTooBig))
            && TakeFrame(readLimit, afterHeader) ==
               (if |body| <= readLimit then Ok((body, rest)) else Err(FrameTooBig))
  {
    var afterHeader := PutFrame(body) + rest;
    var afterVersion := PutFrame(header) + afterHeader;
    assert Written(writeLimit, v, header, body).1 + rest == VersionFrame(v) + afterVersion;
    VersionRoundTrip(v, afterVersion);
    TakeFrameUndoes(readLimit, header, afterHeader);
    TakeFrameUndoes(readLimit, body, rest);
  }

  /** Reading undoes writing, with any trailing bytes left over, for every order in which
      the headers may be listed; the reader's own limit alone can make it fail. */
  lemma RequestRoundTrip(writeLimit: nat, readLimit: nat, r: Request<Bytes>, pairs: Pairs, rest: Bytes)
    requires writeLimit < U32_LIMIT && Enumerates(pairs, r.headers)
    requires Written(writeLimit, r.version, RequestHeader(r.route, pairs), r.body).0
    ensures var header := RequestHeader(r.route, pairs);
            ParseRequest(readLimit, Written(writeLimit, r.version, header, r.body).1 + rest) ==
            if |header| <= readLimit && |r.body| <= readLimit
            then Ok((r.(peer := None), rest)) else Err(FrameTooBig)
  {
    StepsRoundTrip(writeLimit, readLimit, r.version, RequestHeader(r.route, pairs), r.body, rest);
    RequestHeaderRoundTrip(r.route, pairs);
    EnumerationRebuildsMap(pairs, r.headers);
  }

  lemma ResponseRoundTrip(writeLimit: nat, readLimit: nat, r: Response<Bytes>, pairs: Pairs, rest: Bytes)
    requires writeLimit < U32_LIMIT && Enumerates(pairs, r.headers)
    requires Written(writeLimit, r.version, ResponseHeader(r.status, pairs), r.body).0
    ensures var header := ResponseHeader(r.status, pairs);
            ParseResponse(readLimit, Written(writeLimit, r.version, header, r.body).1 + rest) ==
            if |header| <= readLimit && |r.body| <= readLimit
            then Ok((r.(peer := None), rest)) else Err(FrameTooBig)
  {
    StepsRoundTrip(writeLimit, readLimit, r.version, ResponseHeader(r.status, pairs), r.body, rest);
    ResponseHeaderRoundTrip(r.status, pairs);
    StatusRoundTrip(r.status);
    EnumerationRebuildsMap(pairs, r.headers);
  }

  /** How a request or response fares on its way, given the order its headers are listed
      in: it arrives without its extensions, or not at all. */
  function CarryRequest(writeLimit: nat, readLimit: nat, r: Request<Bytes>, pairs: Pairs): Option<Request<Bytes>> {
    var (sent, b) := Written(writeLimit, r.version, RequestHeader(r.route, pairs), r.body);
    var parsed := ParseRequest(readLimit, b);
    if sent && parsed.Ok? then Some(parsed.value.0) else None
  }

  function CarryResponse(writeLimit: nat, readLimit: nat, r: Response<Bytes>, pairs: Pairs): Option<Response<Bytes>> {
    var (sent, b) := Written(writeLimit, r.version, ResponseHeader(r.status, pairs), r.body);
    var parsed := ParseResponse(readLimit, b);
    if sent && parsed.Ok? then Some(parsed.value.0) else None
  }

  predicate Fits(limit: nat, header: Bytes, body: Bytes) {
    |header| <= limit && |body| <= limit
  }

  /** Nothing but a version frame and two frames within the limit is read as a message, and
      what is read is in them. */
  lemma RequestIsGenuine(limit: nat, b: Bytes)
    requires ParseRequest(limit, b).Ok?
    ensures var (r, rest) := ParseRequest(limit, b).value;
            exists header ::
              && b == VersionFrame(r.version) + PutFrame(header) + PutFrame(r.body) + rest
              && Fits(limit, header, r.body)
              && TakeText(header).Ok? && TakeText(header).value.0 == r.route
              && TakeHeaders(TakeText(header).value.1).Ok?
              && TakeHeaders(TakeText(header).value.1).value.0 == r.headers
  {
    var header := MessageIsGenuine(limit, b);
  }

  lemma ResponseIsGenuine(limit: nat, b: Bytes)
    requires ParseResponse(limit, b).Ok?
    ensures var (r, rest) := ParseResponse(limit, b).value;
            exists header ::
              && b == VersionFrame(r.version) + PutFrame(header) + PutFrame(r.body) + rest
              && Fits(limit, header, r.body)
              && TakeU16(header).Ok? && TakeU16(header).value.0 == ToU16(r.status)
              && TakeHeaders(TakeU16(header).value.1).Ok?
              && TakeHeaders(TakeU16(header).value.1).value.0 == r.headers
  {
    var header := MessageIsGenuine(limit, b);
    StatusRoundTrip(ParseResponse(limit, b).value.0.status);
  }

  lemma MessageIsGenuine(limit: nat, b: Bytes) returns (header: Bytes)
    requires TakeFrames(limit, b).Ok?
    ensures var ((h, body), rest) := TakeFrames(limit, b).value;
            && header == h && TakeVersion(b).Ok?
            && b == VersionFrame(TakeVersion(b).value.0) + PutFrame(header) + PutFrame(body) + rest
            && Fits(limit, header, body)
  {
    VersionIsGenuine(b);
    header := FramesAreGenuine(limit, TakeVersion(b).value.1);
    var ((h, body), rest) := TakeFrames(limit, b).value;
    AppendAssociates(VersionFrame(TakeVersion(b).value.0), PutFrame(header), PutFrame(body), rest);
    Associates(PutFrame(header), PutFrame(body), rest);
  }

  lemma FramesAreGenuine(limit: nat, b: Bytes) returns (header: Bytes)
    requires TakeFrame(limit, b).Ok? && TakeFrame(limit, TakeFrame(limit, b).value.1).Ok?
    ensures var (h, afterHeader) := TakeFrame(limit, b).value;
            var (body, rest) := TakeFrame(limit, afterHeader).value;
            header == h && b == PutFrame(header) + (PutFrame(body) + rest) && Fits(limit, header, body)
  {
    FrameIsGenuine(limit, b);
    header := TakeFrame(limit, b).value.0;
    FrameIsGenuine(limit, TakeFrame(limit, b).value.1);
  }

  lemma NothingLeft(b: Bytes)
    ensures b + [] == b
  {
  }

  /** A request arrives exactly if its frames fit both limits. */
  lemma RequestIsCarried(writeLimit: nat, readLimit: nat, r: Request<Bytes>, pairs: Pairs)
    requires writeLimit < U32_LIMIT && Enumerates(pairs, r.headers)
    ensures var header := RequestHeader(r.route, pairs);
            CarryRequest(writeLimit, readLimit, r, pairs) ==
            if Fits(writeLimit, header, r.body) && Fits(readLimit, header, r.body) then Some(r.(peer := None)) else None
  {
    var w := Written(writeLimit, r.version, RequestHeader(r.route, pairs), r.body);
    if w.0 {
      RequestRoundTrip(writeLimit, readLimit, r, pairs, []);
      NothingLeft(w.1);
    }
  }

  lemma ResponseIsCarried(writeLimit: nat, readLimit: nat, r: Response<Bytes>, pairs: Pairs)
    requires writeLimit < U32_LIMIT && Enumerates(pairs, r.headers)
    ensures var header := ResponseHeader(r.status, pairs);
            CarryResponse(writeLimit, readLimit, r, pairs) ==
            if Fits(writeLimit, header, r.body) && Fits(readLimit, header, r.body) then Some(r.(peer := None)) else None
  {
    var w := Written(writeLimit, r.version, ResponseHeader(r.status, pairs), r.body);
    if w.0 {
      ResponseRoundTrip(writeLimit, readLimit, r, pairs, []);
      NothingLeft(w.1);
    }
  }

  // ------------------------------------------------------------- frame limits

  /** A limit that is not configured is left to the codec's own default. */
  function FrameLimit(configured: Option<nat>, codecDefault: nat): nat {
    match configured
    case Some(limit) => limit
    case None => codecDefault
  }

  /** Whether a message arrives, whatever the two ends have configured: exactly if it is
      within each limit that is configured, and within the codec's default if one is not. */
  lemma LimitsDecideRequests(sender: Option<nat>, receiver: Option<nat>, codecDefault: nat, r: Request<Bytes>,
                             pairs: Pairs)
    requires codecDefault < U32_LIMIT && (sender.Some? ==> sender.value < U32_LIMIT) && Enumerates(pairs, r.headers)
    ensures var header := RequestHeader(r.route, pairs);
            CarryRequest(FrameLimit(sender, codecDefault), FrameLimit(receiver, codecDefault), r, pairs) ==
            if && (sender.Some? ==> |header| <= sender.value && |r.body| <= sender.value)
               && (receiver.Some? ==> |header| <= receiver.value && |r.body| <= receiver.value)
               && (sender.None? || receiver.None? ==> |header| <= codecDefault && |r.body| <= codecDefault)
            then Some(r.(peer := None)) else None
  {
    RequestIsCarried(FrameLimit(sender, codecDefault), FrameLimit(receiver, codecDefault), r, pairs);
  }

  lemma LimitsDecideResponses(sender: Option<nat>, receiver: Option<nat>, codecDefault: nat, r: Response<Bytes>,
                              pairs: Pairs)
    requires codecDefault < U32_LIMIT && (sender.Some? ==> sender.value < U32_LIMIT) && Enumerates(pairs, r.headers)
    ensures var header := ResponseHeader(r.status, pairs);
            CarryResponse(FrameLimit(sender, codecDefault), FrameLimit(receiver, codecDefault), r, pairs) ==
            if && (sender.Some? ==> |header| <= sender.value && |r.body| <= sender.value)
               && (receiver.Some? ==> |header| <= receiver.value && |r.body| <= receiver.value)
               && (sender.None? || receiver.None? ==> |header| <= codecDefault && |r.body| <= codecDefault)
            then Some(r.(peer := None)) else None
  {
    ResponseIsCarried(FrameLimit(sender, codecDefault), FrameLimit(receiver, codecDefault), r, pairs);
  }

  /** Between two ends whose frame limit is not configured a message arrives exactly if
      both of its frames are within the codec's default: there is a limit all the same. */
  lemma UnconfiguredRequestsAreLimited(codecDefault: nat, r: Request<Bytes>, pairs: Pairs)
    requires codecDefault < U32_LIMIT && Enumerates(pairs, r.headers)
    ensures var limit := FrameLimit(None, codecDefault);
            var header := RequestHeader(r.route, pairs);
            CarryRequest(limit, limit, r, pairs) ==
            if |header| <= codecDefault && |r.body| <= codecDefault then Some(r.(peer := None)) else None
  {
    RequestIsCarried(codecDefault, codecDefault, r, pairs);
  }

  lemma UnconfiguredResponsesAreLimited(codecDefault: nat, r: Response<Bytes>, pairs: Pairs)
    requires codecDefault < U32_LIMIT && Enumerates(pairs, r.headers)
    ensures var limit := FrameLimit(None, codecDefault);
            var header := ResponseHeader(r.status, pairs);
            CarryResponse(limit, limit, r, pairs) ==
            if |header| <= codecDefault && |r.body| <= codecDefault then Some(r.(peer := None)) else None
  {
    ResponseIsCarried(codecDefault, codecDefault, r, pairs);
  }

  /** For every route and all headers there is a body that is lost, one byte longer than
      the default, while the same message with one byte less arrives if its header does. */
  lemma OneByteTooMany(codecDefault: nat, r: Request<Bytes>, pairs: Pairs) returns (lost: Bytes)
    requires codecDefault < U32_LIMIT && Enumerates(pairs, r.headers)
    ensures |lost| == codecDefault + 1
    ensures var limit := FrameLimit(None, codecDefault);
            && CarryRequest(limit, limit, r.(body := lost), pairs) == None
            && (|RequestHeader(r.route, pairs)| <= codecDefault ==>
                  CarryRequest(limit, limit, r.(body := lost[1..]), pairs).Some?)
  {
    lost := seq(codecDefault + 1, _ => 0 as Byte);
    UnconfiguredRequestsAreLimited(codecDefault, r.(body := lost), pairs);
    UnconfiguredRequestsAreLimited(codecDefault, r.(body := lost[1..]), pairs);
  }

  /** Whatever has not been written to the end is rejected: of a complete message every
      strict prefix. The same for both kinds of message, so shown for the frames alone. */
  function TakeFrames(limit: nat, b: Bytes): Parsed<(Bytes, Bytes)> {
    var (v, b) :- TakeVersion(b);
    var (header, b) :- TakeFrame(limit, b);
    var (body, b) :- TakeFrame(limit, b);
    Ok(((header, body), b))
  }

  lemma PrefixBeyond(first: Bytes, second: Bytes, b: Bytes)
    requires b < first + second && |first| <= |b|
    ensures b == first + b[|first|..] && b[|first|..] < second
  {
    var rest := b[|first|..];
    assert b == (first + second)[..|b|];
    assert rest == second[..|rest|];
  }

  lemma CutMessageIsRejected(limit: nat, v: Version, header: Bytes, body: Bytes, b: Bytes)
    requires |header| < U32_LIMIT && |body| < U32_LIMIT
    requires b < VersionFrame(v) + PutFrame(header) + PutFrame(body)
    ensures TakeFrames(limit, b).Err?
  {
    if |b| >= 8 {
      var frames := PutFrame(header) + PutFrame(body);
      assert VersionFrame(v) + PutFrame(header) + PutFrame(body) == VersionFrame(v) + frames;
      PrefixBeyond(VersionFrame(v), frames, b);
      VersionRoundTrip(v, b[8..]);
      CutFramesAreRejected(limit, header, body, b[8..]);
    }
  }

  lemma CutFramesAreRejected(limit: nat, header: Bytes, body: Bytes, b: Bytes)
    requires |header| < U32_LIMIT && |body| < U32_LIMIT
    requires b < PutFrame(header) + PutFrame(body)
    ensures TakeFrame(limit, b).Ok? ==> TakeFrame(limit, TakeFrame(limit, b).value.1).Err?
  {
    var first := PutFrame(header);
    if |b| < |first| {
      assert b < first by {
        assert b == (first + PutFrame(body))[..|b|] == first[..|b|];
      }
      CutFrameIsRejected(limit, header, b);
    } else {
      var rest := b[|first|..];
      PrefixBeyond(first, PutFrame(body), b);
      TakeFrameUndoes(limit, header, rest);
      CutFrameIsRejected(limit, body, rest);
    }
  }

  lemma ParsingNeedsTheFrames(limit: nat, b: Bytes)
    ensures ParseRequest(limit, b).Ok? ==> TakeFrames(limit, b).Ok?
    ensures ParseResponse(limit, b).Ok? ==> TakeFrames(limit, b).Ok?
  {
  }

  /** No strict prefix of a written request or response can be read. */
  lemma StrictPrefixIsRejected(writeLimit: nat, readLimit: nat, v: Version, header: Bytes, body: Bytes, b: Bytes)
    requires writeLimit < U32_LIMIT && Written(writeLimit, v, header, body).0
    requires b < Written(writeLimit, v, header, body).1
    ensures ParseRequest(readLimit, b).Err? && ParseResponse(readLimit, b).Err?
  {
    CutMessageIsRejected(readLimit, v, header, body, b);
    ParsingNeedsTheFrames(readLimit, b);
  }

  /** A message that did not fit leaves bytes behind, but nothing readable. */
  lemma FailedWriteIsRejected(writeLimit: nat, readLimit: nat, v: Version, header: Bytes, body: Bytes)
    requires writeLimit < U32_LIMIT && !Written(writeLimit, v, header, body).0
    ensures var b := Written(writeLimit, v, header, body).1;
            ParseRequest(readLimit, b).Err? && ParseResponse(readLimit, b).Err?
  {
    var b := Written(writeLimit, v, header, body).1;
    var h := if |header| > writeLimit then [] else header;
    assert b < VersionFrame(v) + PutFrame(h) + PutFrame([]);
    CutMessageIsRejected(readLimit, v, h, [], b);
    ParsingNeedsTheFrames(readLimit, b);
  }

  // -------------------------------------------------- stepwise, over streams

  lemma AppendAssociates(a: Bytes, b: Bytes, c: Bytes, d: Bytes)
    ensures a + b + c + d == a + (b + c + d) && a + b + c == a + (b + c)
  {
  }

  class Sink {
    var written: Bytes

    constructor ()
      ensures written == []
    {
      written := [];
    }

    method WriteAll(b: Bytes)
      modifies this
      ensures written == old(written) + b
    {
      written := written + b;
    }

    /** Sends one frame, unless it exceeds the limit. */
    method Send(limit: nat, payload: Bytes) returns (ok: bool)
      modifies this
      ensures ok == (|payload| <= limit)
      ensures written == if ok then old(written) + PutFrame(payload) else old(written)
    {
      ok := |payload| <= limit;
      if ok {
        written := written + PutFrame(payload);
      }
    }

    method WriteVersionFrame(v: Version)
      modifies this
      ensures written == old(written) + VersionFrame(v)
    {
      var buf := new Byte[8](_ => 0);
      for i := 0 to 5
        modifies buf
        invariant forall j :: 0 <= j < i ==> buf[j] == ANEMO[j]
        invariant forall j :: i <= j < 8 ==> buf[j] == 0
      {
        buf[i] := ANEMO[i];
      }
      var version := BigEndian(VersionNumber(v), 2);
      buf[5], buf[6] := version[0], version[1];
      assert buf[..] == VersionFrame(v);
      WriteAll(buf[..]);
    }

    method WriteRequest(limit: nat, r: Request<Bytes>, pairs: Pairs) returns (ok: bool)
      requires Enumerates(pairs, r.headers)
      modifies this
      ensures (ok, written) == (Written(limit, r.version, RequestHeader(r.route, pairs), r.body).0,
                                old(written) + Written(limit, r.version, RequestHeader(r.route, pairs), r.body).1)
    {
      WriteVersionFrame(r.version);
      ok := Send(limit, RequestHeader(r.route, pairs));
      if ok {
        ok := Send(limit, r.body);
      }
      var header := RequestHeader(r.route, pairs);
      AppendAssociates(old(written), VersionFrame(r.version), PutFrame(header), PutFrame(r.body));
    }

    method WriteResponse(limit: nat, r: Response<Bytes>, pairs: Pairs) returns (ok: bool)
      requires Enumerates(pairs, r.headers)
      modifies this
      ensures (ok, written) == (Written(limit, r.version, ResponseHeader(r.status, pairs), r.body).0,
                                old(written) + Written(limit, r.version, ResponseHeader(r.status, pairs), r.body).1)
    {
      WriteVersionFrame(r.version);
      ok := Send(limit, ResponseHeader(r.status, pairs));
      if ok {
        ok := Send(limit, r.body);
      }
      var header := ResponseHeader(r.status, pairs);
      AppendAssociates(old(written), VersionFrame(r.version), PutFrame(header), PutFrame(r.body));
    }
  }

  class Source {
    var rest: Bytes

    constructor (b: Bytes)
      ensures rest == b
    {
      rest := b;
    }

    method ReadVersionFrame() returns (r: Result<Version, WireError>)
      modifies this
      ensures Reads(TakeVersion(old(rest)), r, rest)
    {
      if |rest| < 8 {
        return Err(UnexpectedEof);
      }
      var buf := rest[..8];
      rest := rest[8..];
      if buf[0..5] != ANEMO || buf[7] != 0 {
        return Err(InvalidProtocolHeader);
      }
      assert buf[5..7] == old(rest)[5..7] && buf[0..5] == old(rest)[..5];
      var number := FromBigEndian(buf[5..7]);
      var version := NewVersion(number);
      r := if version.Some? then Ok(version.value) else Err(InvalidVersion(number));
    }

    method NextFrame(limit: nat) returns (r: Result<Bytes, WireError>)
      modifies this
      ensures Reads(TakeFrame(limit, old(rest)), r, rest)
    {
      var taken := TakeFrame(limit, rest);
      if taken.Err? {
        return Err(taken.error);
      }
      rest := taken.value.1;
      r := Ok(taken.value.0);
    }

    method ReadRequest(limit: nat) returns (r: Result<Request<Bytes>, WireError>)
      modifies this
      ensures Reads(ParseRequest(limit, old(rest)), r, rest)
    {
      var version := ReadVersionFrame();
      if version.Err? { return Err(version.error); }
      var header := NextFrame(limit);
      if header.Err? { return Err(header.error); }
      var route := TakeText(header.value);
      if route.Err? { return Err(route.error); }
      var headers := TakeHeaders(route.value.1);
      if headers.Err? { return Err(headers.error); }
      var body := NextFrame(limit);
      if body.Err? { return Err(body.error); }
      r := Ok(Request(route.value.0, version.value, headers.value.0, None, body.value));
    }

    method ReadResponse(limit: nat) returns (r: Result<Response<Bytes>, WireError>)
      modifies this
      ensures Reads(ParseResponse(limit, old(rest)), r, rest)
    {
      var version := ReadVersionFrame();
      if version.Err? { return Err(version.error); }
      var header := NextFrame(limit);
      if header.Err? { return Err(header.error); }
      var code := TakeU16(header.value);
      if code.Err? { return Err(code.error); }
      var headers := TakeHeaders(code.value.1);
      if headers.Err? { return Err(headers.error); }
      var status := NewStatus(code.value.0);
      if status.None? { return Err(InvalidStatus(code.value.0)); }
      var body := NextFrame(limit);
      if body.Err? { return Err(body.error); }
      r := Ok(Response(status.value, version.value, headers.value.0, None, body.value));
    }
  }

  /** A read returned what the parser finds, and left what it leaves over; an error says
      nothing about the rest of the stream. */
  predicate Reads<T(==)>(parsed: Parsed<T>, r: Result<T, WireError>, rest: Bytes) {
    match parsed
    case Ok((value, left)) => r == Ok(value) && rest == left
    case Err(e) => r == Err(e)
  }
}
