/** The /api/horoscope request handler as a function from a request to the
    response it sends and the upstream call it makes, if any. The clock,
    the environment's key and the network are not modelled: the current UTC
    day is a parameter, and the chat-completions call is a function from
    what the prompt is built from to how the call ends. */
module Handler {
  import opened Wrappers
  import opened JsText
  import opened JsValues
  import opened BodyReader

  /** What the handler reads from a request; `body` is the request stream
      already decoded as UTF-8. */
  datatype Request = Request(
    verb: string,
    origin: Option<string>,
    contentType: Option<string>,
    body: string)

  /** What is substituted into the prompt: the name shown for the sign and
      the day. */
  datatype Call = Call(name: JsValue, day: JsValue)

  /** How the upstream call ends. */
  datatype Reply =
    | Unreachable(error: string)  // fetch rejects; String(e)
    | NotOk(text: string)         // a non-2xx status and the body as text
    | Unreadable(error: string)   // the body is not JSON; String(e)
    | Delivered(data: JsValue)    // the parsed body

  /** Status, headers set with res.setHeader, and the JSON body (None for
      `end()` and for `json(undefined)`). */
  datatype Response = Response(status: nat, headers: map<string, string>, body: Option<JsValue>)

  /** The response together with the upstream call made, if any. */
  datatype Exchange = Exchange(response: Response, call: Option<Call>)

  const AllowOriginHeader := "Access-Control-Allow-Origin"
  const AllowMethodsHeader := "Access-Control-Allow-Methods"
  const AllowHeadersHeader := "Access-Control-Allow-Headers"
  const CacheControlHeader := "Cache-Control"
  const AllowedMethods := "POST, OPTIONS"
  const AllowedHeaders := "Content-Type, Authorization"
  const CachePolicy := "s-maxage=3600, stale-while-revalidate=60"
  const InvalidJsonHint :=
    "Use Content-Type: application/json e um corpo como {\"sign\":\"aries\",\"sign_label\":\"\U{C1}ries\"}"
  const MissingSignHint := "Envie {\"sign\":\"aries\"} em JSON"

  /** `req.headers.origin || "*"`. */
  function AllowOrigin(origin: Option<string>): (o: string)
    ensures o != []
    ensures origin.Some? && origin.value != [] ==> o == origin.value
    ensures origin.None? || origin.value == [] ==> o == "*"
  {
    if origin.Some? && origin.value != [] then origin.value else "*"
  }

  function PreflightHeaders(origin: string): map<string, string> {
    map[AllowOriginHeader := origin,
        AllowMethodsHeader := AllowedMethods,
        AllowHeadersHeader := AllowedHeaders]
  }

  /** The error object `{error: code, ...}`. */
  function ErrorBody(code: string, key: string, text: string): JsValue {
    StrObject(map["error" := code, key := text])
  }

  /** The outer `catch`: 500 `failed_to_generate` with String(e) as detail. */
  function Failed(headers: map<string, string>, detail: string): Response {
    Response(500, headers, Some(ErrorBody("failed_to_generate", "detail", detail)))
  }

  function Succeeded(headers: map<string, string>, out: Option<JsValue>): Response {
    Response(200, headers[CacheControlHeader := CachePolicy], out)
  }

  /** Lines 46-54 and 70: the call made when `sign` is truthy. The name is
      `sign_label || sign`, the day `date || today`. */
  function PromptCall(body: JsValue, today: string): (c: Option<Call>)
    requires !body.JNull?
    ensures c.Some? <==> Truthy(Member(body, "sign"))
    ensures c.Some? ==> Truthy(Some(c.value.name))
    ensures c.Some? && Truthy(Member(body, "sign_label")) ==> Some(c.value.name) == Member(body, "sign_label")
    ensures c.Some? && !Truthy(Member(body, "sign_label")) ==> Some(c.value.name) == Member(body, "sign")
    ensures c.Some? && Truthy(Member(body, "date")) ==> Some(c.value.day) == Member(body, "date")
    ensures c.Some? && !Truthy(Member(body, "date")) ==> c.value.day == JStr(today)
  {
    var sign := Member(body, "sign");
    var signLabel := Member(body, "sign_label");
    var date := Member(body, "date");
    if !Truthy(sign) then None
    else Some(Call(if Truthy(signLabel) then signLabel.value else sign.value,
                   if Truthy(date) then date.value else JStr(today)))
  }

  /** `data?.choices?.[0]?.message?.content`: defined exactly when the first
      choice is an object whose `message` is an object with `content`. */
  function ReplyContent(data: JsValue): (r: Option<JsValue>)
    ensures var first := OptFirst(OptMember(Some(data), "choices"));
      r.Some? <==>
        first.Some? && first.value.JObj? && "message" in first.value.fields &&
        first.value.fields["message"].JObj? && "content" in first.value.fields["message"].fields
    ensures var first := OptFirst(OptMember(Some(data), "choices"));
      r.Some? ==> r.value == first.value.fields["message"].fields["content"]
  {
    OptMember(OptMember(OptFirst(OptMember(Some(data), "choices")), "message"), "content")
  }

  /** A chat-completions reply `{"choices":[{"message":{"content":c}}]}`
      yields `c`. */
  lemma CompletionContent(c: JsValue, rest: map<string, JsValue>)
    ensures ReplyContent(JObj(rest["choices" := JArr([JObj(map["message" := JObj(map["content" := c])])])]))
            == Some(c)
  {
  }

  /** Lines 103-119: the response for the upstream's reply. */
  function Relay(headers: map<string, string>, reply: Reply, rt: Runtime): (resp: Response)
    ensures resp.status in {200, 500, 502}
    ensures CacheControlHeader !in headers ==> (CacheControlHeader in resp.headers <==> resp.status == 200)
    ensures resp.status == 502 <==> reply.NotOk?
    ensures resp.status == 200 ==> reply.Delivered?
    ensures resp.headers == if resp.status == 200 then headers[CacheControlHeader := CachePolicy] else headers
  {
    match reply
    case Unreachable(e) => Failed(headers, Describe(Rejected(e)))
    case NotOk(text) => Response(502, headers, Some(ErrorBody("openai_error", "detail", text)))
    case Unreadable(e) => Failed(headers, Describe(Rejected(e)))
    case Delivered(data) =>
      var content := ReplyContent(data);
      if content.Some? && content.value.JStr? then
        match rt.parseJson(content.value.s)
        case None =>
          Response(500, headers, Some(ErrorBody("invalid_json_from_model", "raw", content.value.s)))
        case Some(out) => Succeeded(headers, Some(out))
      else Succeeded(headers, content)
  }

  /** `Access-Control-Allow-Origin` alone, as set on line 11. */
  function CorsHeaders(origin: Option<string>): map<string, string> {
    map[AllowOriginHeader := AllowOrigin(origin)]
  }

  /** Where the handler stands before the upstream call: it has either
      answered already, or knows what to call the upstream with. */
  datatype Intake = EarlyExit(response: Response) | Consult(call: Call)

  /** Lines 4-70: CORS, the method checks, reading the body, validating
      `sign` and building the prompt, in that order. None of it involves
      the upstream. */
  function Admit(req: Request, today: string, rt: Runtime): (i: Intake)
    ensures i.EarlyExit? ==> i.response.status in {204, 400, 405, 500}
    ensures i.EarlyExit? ==> CacheControlHeader !in i.response.headers
    ensures i.EarlyExit? ==> AllowOriginHeader in i.response.headers &&
                             i.response.headers[AllowOriginHeader] == AllowOrigin(req.origin)
    ensures i.EarlyExit? && i.response.status != 204 ==> i.response.headers == CorsHeaders(req.origin)
    ensures i.Consult? ==> req.verb == "POST"
    ensures i.Consult? ==> Stringifies(i.call.name) && Stringifies(i.call.day)
  {
    var origin := AllowOrigin(req.origin);
    if req.verb == "OPTIONS" then
      EarlyExit(Response(204, PreflightHeaders(origin), None))
    else
      var headers := CorsHeaders(req.origin);
      if req.verb != "POST" then
        EarlyExit(Response(405, headers, Some(StrObject(map["error" := "method_not_allowed"]))))
      else
        match ReadBody(req.contentType, req.body, rt)
        case Err(e) => EarlyExit(Failed(headers, Describe(e)))
        case Ok(body) => Validate(headers, body, today)
  }

  /** Lines 39-70, on the decoded body: the `__invalid_json` check (which
      throws on null), the `sign` check, and the conversions of the prompt's
      template literal. */
  function Validate(headers: map<string, string>, body: JsValue, today: string): (i: Intake)
    ensures i.EarlyExit? ==> i.response.status in {400, 500} && i.response.headers == headers
    ensures i.Consult? ==> !body.JNull? && PromptCall(body, today) == Some(i.call)
    ensures i.Consult? ==> Stringifies(i.call.name) && Stringifies(i.call.day)
  {
    if body.JNull? then
      EarlyExit(Failed(headers, Describe(NullRead(InvalidJsonFlag))))
    else if Truthy(Member(body, InvalidJsonFlag)) then
      EarlyExit(Response(400, headers, Some(ErrorBody("invalid_json", "hint", InvalidJsonHint))))
    else
      match PromptCall(body, today)
      case None =>
        EarlyExit(Response(400, headers, Some(ErrorBody("missing \"sign\"", "hint", MissingSignHint))))
      case Some(call) =>
        if Stringifies(call.name) && Stringifies(call.day) then Consult(call)
        else EarlyExit(Failed(headers, Describe(NoPrimitive)))
  }

  /** Once a POST body is decoded, what happens next depends on the body
      alone. */
  lemma AdmitDecoded(req: Request, today: string, rt: Runtime, body: JsValue)
    requires req.verb == "POST"
    requires ReadBody(req.contentType, req.body, rt) == Ok(body)
    ensures Admit(req, today, rt) == Validate(CorsHeaders(req.origin), body, today)
  {
  }

  /** The handler. `today` is the current UTC day as `YYYY-MM-DD`. */
  function Handle(req: Request, today: string, rt: Runtime, upstream: Call -> Reply): (x: Exchange)
    ensures x.response.status in {200, 204, 400, 405, 500, 502}
    ensures AllowOriginHeader in x.response.headers
    ensures x.response.headers[AllowOriginHeader] == AllowOrigin(req.origin)
    ensures CacheControlHeader in x.response.headers <==> x.response.status == 200
    ensures x.response.status in {204, 400, 405} ==> x.call.None?
    ensures x.response.status == 200 ==> x.call.Some? && upstream(x.call.value).Delivered?
    ensures x.response.status == 502 <==> x.call.Some? && upstream(x.call.value).NotOk?
    ensures x.call.Some? ==> req.verb == "POST"
  {
    match Admit(req, today, rt)
    case EarlyExit(response) => Exchange(response, None)
    case Consult(call) => Exchange(Relay(CorsHeaders(req.origin), upstream(call), rt), Some(call))
  }

  // ---------------------------------------------------------------------
  // The order of the early exits

  /** An OPTIONS request is answered 204 with the three CORS headers and no
      body; the answer depends on the Origin header alone, so the body is
      never read and nothing is called. */
  lemma PreflightAnswered(req: Request, today: string, rt: Runtime, upstream: Call -> Reply)
    requires req.verb == "OPTIONS"
    ensures Handle(req, today, rt, upstream) ==
      Exchange(Response(204, map[AllowOriginHeader := AllowOrigin(req.origin),
                                 AllowMethodsHeader := "POST, OPTIONS",
                                 AllowHeadersHeader := "Content-Type, Authorization"], None), None)
  {
  }

  /** Any method but OPTIONS and POST is refused 405 `method_not_allowed`
      with only Allow-Origin set; the body is never read and nothing is
      called. */
  lemma OtherMethodsRejected(req: Request, today: string, rt: Runtime, upstream: Call -> Reply)
    requires req.verb != "OPTIONS" && req.verb != "POST"
    ensures Handle(req, today, rt, upstream) ==
      Exchange(Response(405, CorsHeaders(req.origin),
                        Some(StrObject(map["error" := "method_not_allowed"]))), None)
  {
  }

  /** A decoded body with a truthy `__invalid_json` property is refused 400
      `invalid_json` before any call. The marker of an unparseable JSON body
      is one such body; a JSON or form body that sets the property itself is
      another. */
  lemma InvalidJsonFlagRejected(req: Request, today: string, rt: Runtime, upstream: Call -> Reply,
                                body: JsValue)
    requires req.verb == "POST"
    requires ReadBody(req.contentType, req.body, rt) == Ok(body)
    requires body.JObj? && InvalidJsonFlag in body.fields && Truthy(Some(body.fields[InvalidJsonFlag]))
    ensures Handle(req, today, rt, upstream) ==
      Exchange(Response(400, CorsHeaders(req.origin),
                        Some(ErrorBody("invalid_json", "hint", InvalidJsonHint))), None)
  {
  }

  /** With a JSON content type, text that JSON.parse rejects is refused 400
      `invalid_json` and nothing is called, even when the text also looks
      like `key=value`. */
  lemma UnparseableJsonRejected(req: Request, today: string, rt: Runtime, upstream: Call -> Reply)
    requires req.verb == "POST"
    requires Contains(MediaType(req.contentType), JsonMediaType)
    requires rt.parseJson(Trim(req.body)).None?
    ensures Handle(req, today, rt, upstream).response.status == 400
    ensures Handle(req, today, rt, upstream).response.body == Some(ErrorBody("invalid_json", "hint", InvalidJsonHint))
    ensures Handle(req, today, rt, upstream).call.None?
  {
    InvalidJsonFlagRejected(req, today, rt, upstream, InvalidJsonMarker(Trim(req.body)));
  }

  /** A JSON body that parses to `null` makes the `__invalid_json` check
      itself throw, so the request ends in 500 `failed_to_generate` with the
      TypeError's text, not in 400, and nothing is called. */
  lemma NullJsonFails(req: Request, today: string, rt: Runtime, upstream: Call -> Reply)
    requires req.verb == "POST"
    requires Contains(MediaType(req.contentType), JsonMediaType)
    requires rt.parseJson(Trim(req.body)) == Some(JNull)
    ensures Handle(req, today, rt, upstream) ==
      Exchange(Failed(CorsHeaders(req.origin),
                      "TypeError: Cannot read properties of null (reading '__invalid_json')"), None)
  {
    assert SelectBranch(req.contentType, Trim(req.body)) == JsonBranch;
    assert ReadBody(req.contentType, req.body, rt) == Ok(JNull);
    NullReadText();
    assert Admit(req, today, rt) ==
      EarlyExit(Failed(CorsHeaders(req.origin), Describe(NullRead(InvalidJsonFlag))));
  }

  lemma NullReadText()
    ensures Describe(NullRead(InvalidJsonFlag)) ==
            "TypeError: Cannot read properties of null (reading '__invalid_json')"
  {
  }

  /** In the form branch, a key or value that decodeURIComponent rejects
      ends the request in 500 `failed_to_generate` with the URIError's text,
      and nothing is called. */
  lemma MalformedEscapeFails(req: Request, today: string, rt: Runtime, upstream: Call -> Reply, i: nat)
    requires req.verb == "POST"
    requires SelectBranch(req.contentType, Trim(req.body)) == FormBranch
    requires i < |Segments(Trim(req.body))|
    requires EntryOf(Segments(Trim(req.body))[i], rt.decodeUri).Undecodable?
    ensures Handle(req, today, rt, upstream) ==
      Exchange(Failed(CorsHeaders(req.origin), "URIError: URI malformed"), None)
  {
    var segs := Segments(Trim(req.body));
    assert 0 <= i < |segs| && EntryOf(segs[i], rt.decodeUri).Undecodable?;
    ReadBodyThrowsIff(req.contentType, req.body, rt);
    assert ReadBody(req.contentType, req.body, rt) == Err(UriMalformed);
    assert Admit(req, today, rt) == EarlyExit(Failed(CorsHeaders(req.origin), Describe(UriMalformed)));
  }

  /** A decoded body without a truthy `sign` (absent, "", or any other
      falsy value) is refused 400 `missing "sign"` before any call. */
  lemma MissingSignRejected(req: Request, today: string, rt: Runtime, upstream: Call -> Reply,
                            body: JsValue)
    requires req.verb == "POST"
    requires ReadBody(req.contentType, req.body, rt) == Ok(body)
    requires !body.JNull? && !Truthy(Member(body, InvalidJsonFlag)) && !Truthy(Member(body, "sign"))
    ensures Handle(req, today, rt, upstream) ==
      Exchange(Response(400, CorsHeaders(req.origin),
                        Some(ErrorBody("missing \"sign\"", "hint", MissingSignHint))), None)
  {
  }

  /** A body that is neither JSON nor `key=value` (wrapped as `{raw}`) and an
      empty body (`{}`) both lack `sign`: the answer is 400 `missing "sign"`
      and nothing is called. */
  lemma UnstructuredBodyLacksSign(req: Request, today: string, rt: Runtime, upstream: Call -> Reply)
    requires req.verb == "POST"
    requires SelectBranch(req.contentType, Trim(req.body)) in {RawBranch, EmptyBranch}
    ensures Handle(req, today, rt, upstream).response.status == 400
    ensures Handle(req, today, rt, upstream).response.body ==
            Some(ErrorBody("missing \"sign\"", "hint", MissingSignHint))
    ensures Handle(req, today, rt, upstream).call.None?
  {
    var body := ReadBody(req.contentType, req.body, rt).value;
    MissingSignRejected(req, today, rt, upstream, body);
  }

  // ---------------------------------------------------------------------
  // The upstream call

  /** The upstream is called exactly when the request is a POST whose body
      decodes without throwing to a non-null value with no truthy
      `__invalid_json` and a truthy `sign`, and whose chosen name and day
      convert to strings; it is called with that name and day, and the
      answer is the relay of its reply. */
  lemma UpstreamConsultedIff(req: Request, today: string, rt: Runtime, upstream: Call -> Reply)
    ensures var x := Handle(req, today, rt, upstream);
            var r := ReadBody(req.contentType, req.body, rt);
      x.call.Some? <==>
        req.verb == "POST" && r.Ok? && !r.value.JNull? &&
        !Truthy(Member(r.value, InvalidJsonFlag)) && Truthy(Member(r.value, "sign")) &&
        Stringifies(PromptCall(r.value, today).value.name) &&
        Stringifies(PromptCall(r.value, today).value.day)
    ensures var x := Handle(req, today, rt, upstream);
            var r := ReadBody(req.contentType, req.body, rt);
      x.call.Some? ==>
        x.call == PromptCall(r.value, today) &&
        x.response == Relay(CorsHeaders(req.origin), upstream(x.call.value), rt)
  {
    var r := ReadBody(req.contentType, req.body, rt);
    if req.verb == "POST" && r.Ok? && !r.value.JNull? &&
       !Truthy(Member(r.value, InvalidJsonFlag)) && Truthy(Member(r.value, "sign")) {
      var c := PromptCall(r.value, today).value;
      if Stringifies(c.name) && Stringifies(c.day) {
        assert Admit(req, today, rt) == Consult(c);
      } else {
        assert Admit(req, today, rt).EarlyExit?;
      }
    }
  }

  /** Only a JSON body can make the template literal throw: the form, raw
      and empty branches yield strings, and strings always convert. */
  lemma PrintableOutsideJson(contentType: Option<string>, text: string, today: string, rt: Runtime)
    requires SelectBranch(contentType, Trim(text)) != JsonBranch
    requires ReadBody(contentType, text, rt).Ok?
    ensures var body := ReadBody(contentType, text, rt).value;
      PromptCall(body, today).Some? ==>
        Stringifies(PromptCall(body, today).value.name) && Stringifies(PromptCall(body, today).value.day)
  {
    ReadBodyStrings(contentType, text, rt);
  }

  /** When the name or the day is an object that cannot become a string,
      building the prompt throws: the answer is 500 `failed_to_generate`
      with the TypeError's text, and nothing is called. */
  lemma UnprintablePromptFails(req: Request, today: string, rt: Runtime, upstream: Call -> Reply,
                               body: JsValue)
    requires req.verb == "POST"
    requires ReadBody(req.contentType, req.body, rt) == Ok(body)
    requires !body.JNull? && !Truthy(Member(body, InvalidJsonFlag)) && Truthy(Member(body, "sign"))
    requires !Stringifies(PromptCall(body, today).value.name) ||
             !Stringifies(PromptCall(body, today).value.day)
    ensures Handle(req, today, rt, upstream) ==
      Exchange(Failed(CorsHeaders(req.origin), "TypeError: Cannot convert object to primitive value"), None)
  {
  }

  /** The JSON body `{"sign":{"toString":1}}` is answered 500 without a call. */
  lemma ObjectSignFails(req: Request, today: string, rt: Runtime, upstream: Call -> Reply)
    requires req.verb == "POST"
    requires Contains(MediaType(req.contentType), JsonMediaType)
    requires rt.parseJson(Trim(req.body)) == Some(JObj(map["sign" := JObj(map["toString" := JNum(1.0)])]))
    ensures Handle(req, today, rt, upstream) ==
      Exchange(Failed(CorsHeaders(req.origin), "TypeError: Cannot convert object to primitive value"), None)
  {
    var body := JObj(map["sign" := JObj(map["toString" := JNum(1.0)])]);
    assert ReadBody(req.contentType, req.body, rt) == Ok(body);
    AdmitDecoded(req, today, rt, body);
    ObjectNameThrows(CorsHeaders(req.origin), body, today);
  }

  /** A JSON object body: the upstream is called with `sign_label` when it
      is truthy and `sign` otherwise, and with `date` when it is truthy and
      the current day otherwise. */
  lemma JsonRequestCall(req: Request, today: string, rt: Runtime, upstream: Call -> Reply,
                        fields: map<string, JsValue>)
    requires req.verb == "POST"
    requires Contains(MediaType(req.contentType), JsonMediaType)
    requires rt.parseJson(Trim(req.body)) == Some(JObj(fields))
    requires InvalidJsonFlag !in fields || !Truthy(Some(fields[InvalidJsonFlag]))
    requires "sign" in fields && Truthy(Some(fields["sign"]))
    requires var name := if "sign_label" in fields && Truthy(Some(fields["sign_label"]))
                         then fields["sign_label"] else fields["sign"];
             var day := if "date" in fields && Truthy(Some(fields["date"])) then fields["date"] else JStr(today);
             Stringifies(name) && Stringifies(day)
    ensures var name := if "sign_label" in fields && Truthy(Some(fields["sign_label"]))
                        then fields["sign_label"] else fields["sign"];
            var day := if "date" in fields && Truthy(Some(fields["date"])) then fields["date"] else JStr(today);
            Handle(req, today, rt, upstream).call == Some(Call(name, day))
  {
    var body := JObj(fields);
    assert ReadBody(req.contentType, req.body, rt) == Ok(body);
    AdmitDecoded(req, today, rt, body);
  }

  /** `{"sign":"aries","sign_label":"Áries","date":"2024-01-01"}` calls the
      upstream with the label and the date given. */
  lemma JsonExampleCall(req: Request, today: string, rt: Runtime, upstream: Call -> Reply)
    requires req.verb == "POST"
    requires Contains(MediaType(req.contentType), JsonMediaType)
    requires rt.parseJson(Trim(req.body)) ==
      Some(JObj(map["sign" := JStr("aries"), "sign_label" := JStr("\U{C1}ries"), "date" := JStr("2024-01-01")]))
    ensures Handle(req, today, rt, upstream).call == Some(Call(JStr("\U{C1}ries"), JStr("2024-01-01")))
  {
    var fields := map["sign" := JStr("aries"), "sign_label" := JStr("\U{C1}ries"), "date" := JStr("2024-01-01")];
    JsonRequestCall(req, today, rt, upstream, fields);
  }

  /** On every path that ends before the upstream call, the response does
      not depend on the upstream at all. */
  lemma EarlyExitsIgnoreUpstream(req: Request, today: string, rt: Runtime,
                                 upstream: Call -> Reply, other: Call -> Reply)
    requires Handle(req, today, rt, upstream).call.None?
    ensures Handle(req, today, rt, other) == Handle(req, today, rt, upstream)
  {
  }

  /** How the reply of the call maps to the answer: a non-2xx status gives
      502 `openai_error` with the upstream's text; string content that does
      not parse gives 500 `invalid_json_from_model` with that string; content
      that is not a string is relayed unchanged; a parsed string is relayed
      as its value; only the relays are 200 and carry the cache policy. */
  lemma UpstreamOutcome(req: Request, today: string, rt: Runtime, upstream: Call -> Reply, call: Call)
    requires Handle(req, today, rt, upstream).call == Some(call)
    ensures var resp := Handle(req, today, rt, upstream).response;
            var headers := CorsHeaders(req.origin);
      && (upstream(call).NotOk? ==>
            resp == Response(502, headers, Some(ErrorBody("openai_error", "detail", upstream(call).text))))
      && (upstream(call).Unreachable? ==> resp == Failed(headers, upstream(call).error))
      && (upstream(call).Unreadable? ==> resp == Failed(headers, upstream(call).error))
      && (upstream(call).Delivered? ==>
            var content := ReplyContent(upstream(call).data);
            && (content.Some? && content.value.JStr? && rt.parseJson(content.value.s).None? ==>
                  resp == Response(500, headers,
                                   Some(ErrorBody("invalid_json_from_model", "raw", content.value.s))))
            && (content.Some? && content.value.JStr? && rt.parseJson(content.value.s).Some? ==>
                  resp.status == 200 && resp.body == rt.parseJson(content.value.s))
            && (!(content.Some? && content.value.JStr?) ==> resp.status == 200 && resp.body == content))
      && (resp.status == 200 ==>
            resp.headers == map[AllowOriginHeader := AllowOrigin(req.origin), CacheControlHeader := CachePolicy])
  {
  }

  /** A form body such as `sign=aries&date=2024-01-01`: the upstream is
      called with the decoded fields, `sign_label` preferred to `sign` and
      the injected day used when `date` is absent or empty. */
  lemma FormRequestCall(req: Request, today: string, rt: Runtime, upstream: Call -> Reply,
                        obj: map<string, string>)
    requires req.verb == "POST"
    requires SelectBranch(req.contentType, Trim(req.body)) == FormBranch
    requires FormFields(Segments(Trim(req.body)), rt.decodeUri) == Some(obj)
    requires InvalidJsonFlag !in obj || obj[InvalidJsonFlag] == []
    requires "sign" in obj && obj["sign"] != []
    ensures Handle(req, today, rt, upstream).call ==
      Some(Call(JStr(if "sign_label" in obj && obj["sign_label"] != [] then obj["sign_label"] else obj["sign"]),
                JStr(if "date" in obj && obj["date"] != [] then obj["date"] else today)))
  {
    var body := StrObject(obj);
    assert ReadBody(req.contentType, req.body, rt) == Ok(body);
    AdmitDecoded(req, today, rt, body);
    FormFieldsCall(CorsHeaders(req.origin), obj, today);
  }

  /** The call a form object leads to; its values are strings, so the
      prompt never throws. */
  lemma FormFieldsCall(headers: map<string, string>, obj: map<string, string>, today: string)
    requires InvalidJsonFlag !in obj || obj[InvalidJsonFlag] == []
    requires "sign" in obj && obj["sign"] != []
    ensures Validate(headers, StrObject(obj), today) ==
      Consult(Call(JStr(if "sign_label" in obj && obj["sign_label"] != [] then obj["sign_label"] else obj["sign"]),
                   JStr(if "date" in obj && obj["date"] != [] then obj["date"] else today)))
  {
    var body := StrObject(obj);
    assert !Truthy(Member(body, InvalidJsonFlag));
    assert Member(body, "sign") == Some(JStr(obj["sign"]));
    assert Member(body, "sign_label") == if "sign_label" in obj then Some(JStr(obj["sign_label"])) else None;
    assert Member(body, "date") == if "date" in obj then Some(JStr(obj["date"])) else None;
  }

  /** A `sign` object with its own `toString` makes the prompt throw. */
  lemma ObjectNameThrows(headers: map<string, string>, body: JsValue, today: string)
    requires body == JObj(map["sign" := JObj(map["toString" := JNum(1.0)])])
    ensures Validate(headers, body, today) == EarlyExit(Failed(headers, NoPrimitiveText))
  {
    assert !Truthy(Member(body, InvalidJsonFlag));
    assert PromptCall(body, today).value.name == body.fields["sign"];
  }
}
