/**
 * The POST handler of `/api/request`: it checks the URL, builds the options of
 * the one outbound call, reads the reply as JSON or as text by its content
 * type, answers the caller, and tries to log the exchange. The outbound call,
 * the body readers, JSON encoding and the clock are inputs to the model.
 */
module Executor {
  import opened Wrappers
  import opened Strings
  import opened History

  /** The JSON body the handler receives; absent fields are `None`. */
  datatype RequestFields = RequestFields(
    httpMethod: string,
    url: Option<string>,
    headers: Option<map<string, string>>,
    body: Option<string>)

  /** The options `fetch` is called with. */
  datatype Outbound = Outbound(httpMethod: string, url: string, headers: map<string, string>, body: Option<string>)

  /** A decoded response body: a JavaScript string, or any other JSON value,
      held as the text `JSON.stringify` gives for it. */
  datatype Data = Str(text: string) | Structured(serialized: string)

  /** What a body reader (`response.json()` or `response.text()`) produced, or the
      message of what it threw (`None` when the thrown value is not an `Error`). */
  datatype Read<T> = Read(value: T) | Threw(message: Option<string>)

  /** What the outbound call did. `headers` are the reply's headers as
      `Headers.entries()` lists them, names in lower case. */
  datatype FetchOutcome =
    | NetworkError(message: Option<string>)
    | Responded(status: int, headers: map<string, string>, asJson: Read<Data>, asText: Read<string>)

  /** The clock readings the handler takes: at dispatch, when `fetch` resolves,
      in the failure handler, and for `createdAt`. */
  datatype Clock = Clock(start: int, fetched: int, failed: int, now: nat)

  /** What the caller receives: the result of the call, or an error reply. */
  datatype PostReply =
    | Executed(data: Data, status: int, headers: map<string, string>, responseTime: int)
    | Failed(httpStatus: int, error: string, elapsed: Option<int>)

  const UserAgentHeader := "User-Agent"
  const UserAgent := "REST-Client/1.0"
  const UrlRequired := "URL is required"
  const InternalError := "Internal server error"
  const RequestFailedPrefix := "Request failed: "
  const JsonMediaType := "application/json"

  /** `!url` is false: the URL is present and not empty. */
  predicate HasUrl(req: RequestFields) {
    req.url.Some? && req.url.value != ""
  }

  /** `{ ...headers, "User-Agent": "REST-Client/1.0" }`: the caller's headers,
      with the fixed user agent replacing any the caller gave. */
  function OutboundHeaders(headers: Option<map<string, string>>): (h: map<string, string>)
    ensures UserAgentHeader in h && h[UserAgentHeader] == UserAgent
    ensures forall k :: k != UserAgentHeader ==> (k in h <==> headers.Some? && k in headers.value)
    ensures forall k :: k != UserAgentHeader && k in h ==> h[k] == headers.value[k]
  {
    headers.GetOr(map[])[UserAgentHeader := UserAgent]
  }

  /** The methods that carry a body. */
  predicate TakesBody(httpMethod: string) {
    httpMethod in ["POST", "PUT", "PATCH"]
  }

  /** `body && ["POST", "PUT", "PATCH"].includes(method)`: the body is sent
      only when it is non-empty and the method carries one. */
  function BodyToSend(httpMethod: string, body: Option<string>): (sent: Option<string>)
    ensures sent.Some? <==> body.Some? && body.value != "" && TakesBody(httpMethod)
    ensures sent.Some? ==> sent == body
  {
    if body.Some? && body.value != "" && TakesBody(httpMethod) then body else None
  }

  /** The options of the outbound call. */
  function OutboundOf(req: RequestFields): (o: Outbound)
    requires HasUrl(req)
    ensures o.httpMethod == req.httpMethod && o.url == req.url.value
    ensures o.headers == OutboundHeaders(req.headers) && o.body == BodyToSend(req.httpMethod, req.body)
  {
    Outbound(req.httpMethod, req.url.value, OutboundHeaders(req.headers), BodyToSend(req.httpMethod, req.body))
  }

  /** `response.headers.get("content-type")`. */
  function ContentType(headers: map<string, string>): (ct: Option<string>)
    ensures ct.Some? <==> "content-type" in headers
    ensures ct.Some? ==> ct.value == headers["content-type"]
  {
    if "content-type" in headers then Some(headers["content-type"]) else None
  }

  /** The body is decoded as JSON exactly when a content type is declared and
      contains `application/json`. */
  function IsJson(contentType: Option<string>): (json: bool)
    ensures json <==> contentType.Some? && exists i: nat :: OccursAt(contentType.value, JsonMediaType, i)
  {
    if contentType.Some? then
      ContainsMeansOccurs(contentType.value, JsonMediaType);
      Contains(contentType.value, JsonMediaType)
    else false
  }

  /** The body the handler reads: `response.json()` for a JSON content type, `response.text()` otherwise. */
  function ReadBody(headers: map<string, string>, asJson: Read<Data>, asText: Read<string>): (r: Read<Data>)
    ensures IsJson(ContentType(headers)) ==> r == asJson
    ensures !IsJson(ContentType(headers)) ==> (r.Read? <==> asText.Read?)
    ensures !IsJson(ContentType(headers)) && asText.Read? ==> r.value == Str(asText.value)
    ensures !IsJson(ContentType(headers)) && asText.Threw? ==> r == Threw(asText.message)
  {
    if IsJson(ContentType(headers)) then asJson
    else match asText
      case Read(t) => Read(Str(t))
      case Threw(m) => Threw(m)
  }

  /** The stored `response`: the data itself if it is a string, its JSON serialization otherwise. */
  function ResponseText(d: Data): (s: string)
    ensures d.Str? ==> s == d.text
    ensures d.Structured? ==> s == d.serialized
  {
    match d
    case Str(t) => t
    case Structured(j) => j
  }

  /** `body || null`: an empty body is stored as null. */
  function StoredBody(body: Option<string>): (b: Option<string>)
    ensures b.Some? <==> body.Some? && body.value != ""
    ensures b.Some? ==> b == body
  {
    if body.Some? && body.value != "" then body else None
  }

  /** The error reply of the failure handler. */
  function RequestFailed(message: Option<string>, responseTime: int): (reply: PostReply)
    ensures reply.Failed? && reply.httpStatus == 500 && reply.elapsed == Some(responseTime)
    ensures RequestFailedPrefix <= reply.error
    ensures message.Some? ==> reply.error == RequestFailedPrefix + message.value
    ensures message.None? ==> reply.error == RequestFailedPrefix + "Unknown error"
  {
    Failed(500, RequestFailedPrefix + (if message.Some? then message.value else "Unknown error"), Some(responseTime))
  }

  /** What one POST does: the reply, the outbound call made (if any) and the
      row the handler asks the store to persist (if any). */
  datatype Handling = Handling(reply: PostReply, call: Option<Outbound>, entry: Option<Entry>)

  function Handle(raw: Option<RequestFields>, net: FetchOutcome, clock: Clock): (h: Handling)
    // A body that is not JSON reaches the outer handler.
    ensures raw.None? ==> h == Handling(Failed(500, InternalError, None), None, None)
    // A missing or empty URL is refused before anything else happens.
    ensures raw.Some? && !HasUrl(raw.value) ==> h == Handling(Failed(400, UrlRequired, None), None, None)
    // Exactly one outbound call whenever the URL is present, built from the request.
    ensures h.call.Some? <==> raw.Some? && HasUrl(raw.value)
    ensures h.call.Some? ==> h.call.value == OutboundOf(raw.value)
    // A row is written exactly when the call produced a reply the handler could read.
    ensures h.entry.Some? <==> h.reply.Executed?
    // Failures of the call or of reading its body are 500s carrying the elapsed time.
    ensures h.call.Some? && net.NetworkError? ==> h.reply == RequestFailed(net.message, clock.failed - clock.start)
    ensures h.call.Some? && net.Responded? && ReadBody(net.headers, net.asJson, net.asText).Threw? ==>
              h.reply == RequestFailed(ReadBody(net.headers, net.asJson, net.asText).message, clock.failed - clock.start)
    // A call that was answered and whose body was read succeeds with that body.
    ensures raw.Some? && HasUrl(raw.value) && net.Responded? && ReadBody(net.headers, net.asJson, net.asText).Read? ==>
              h.reply == Executed(ReadBody(net.headers, net.asJson, net.asText).value, net.status, net.headers,
                                  clock.fetched - clock.start)
    // The row matches what the caller is told.
    ensures h.entry.Some? ==>
              var e := h.entry.value;
              var req := raw.value;
              && e.httpMethod == req.httpMethod && e.url == req.url.value
              && e.headers == req.headers.GetOr(map[]) && e.body == StoredBody(req.body)
              && e.response == ResponseText(h.reply.data)
              && e.status == h.reply.status && e.responseTime == h.reply.responseTime
              && e.createdAt == clock.now
    ensures h.reply.Executed? ==>
              && net.Responded? && h.reply.status == net.status && h.reply.headers == net.headers
              && h.reply.responseTime == clock.fetched - clock.start
              && ReadBody(net.headers, net.asJson, net.asText) == Read(h.reply.data)
  {
    match raw
    case None => Handling(Failed(500, InternalError, None), None, None)
    case Some(req) =>
      if !HasUrl(req) then Handling(Failed(400, UrlRequired, None), None, None)
      else
        var call := Some(OutboundOf(req));
        match net
        case NetworkError(m) => Handling(RequestFailed(m, clock.failed - clock.start), call, None)
        case Responded(status, headers, asJson, asText) =>
          match ReadBody(headers, asJson, asText)
          case Threw(m) => Handling(RequestFailed(m, clock.failed - clock.start), call, None)
          case Read(data) =>
            var responseTime := clock.fetched - clock.start;
            var entry := Entry(req.httpMethod, req.url.value, req.headers.GetOr(map[]), StoredBody(req.body),
                               ResponseText(data), status, responseTime, clock.now);
            Handling(Executed(data, status, headers, responseTime), call, Some(entry))
  }

  /** The handler itself, step by step as the route runs it: the options are
      built and then given a body, the reply is read along the try/catch paths,
      and the row is offered to the store, whose failure is swallowed. */
  method Post(store: HistoryStore, raw: Option<RequestFields>, net: FetchOutcome, clock: Clock, storageFails: bool)
    returns (reply: PostReply, call: Option<Outbound>)
    requires store.Valid()
    modifies store
    ensures store.Valid()
    ensures reply == Handle(raw, net, clock).reply && call == Handle(raw, net, clock).call
    // A failed write is swallowed: an answered and read call succeeds whether or not the row is stored.
    ensures raw.Some? && HasUrl(raw.value) && net.Responded? && ReadBody(net.headers, net.asJson, net.asText).Read? ==>
              reply.Executed? && reply.status == net.status && reply.data == ReadBody(net.headers, net.asJson, net.asText).value
    ensures var entry := Handle(raw, net, clock).entry;
      if entry.Some? && !storageFails then
        store.records == old(store.records) + [entry.value.WithId(old(store.nextId))] && store.nextId == old(store.nextId) + 1
      else
        store.records == old(store.records) && store.nextId == old(store.nextId)
  {
    call := None;
    if raw.None? {
      return Failed(500, InternalError, None), None;
    }
    var req := raw.value;
    if !HasUrl(req) {
      return Failed(400, UrlRequired, None), None;
    }
    var options := Outbound(req.httpMethod, req.url.value, OutboundHeaders(req.headers), None);
    if req.body.Some? && req.body.value != "" && TakesBody(req.httpMethod) {
      options := options.(body := req.body);
    }
    call := Some(options);
    var responseTime: int;
    var data: Data;
    match net {
      case NetworkError(m) =>
        responseTime := clock.failed - clock.start;
        return RequestFailed(m, responseTime), call;
      case Responded(status, headers, asJson, asText) =>
        responseTime := clock.fetched - clock.start;
        var read := ReadBody(headers, asJson, asText);
        if read.Threw? {
          responseTime := clock.failed - clock.start;
          return RequestFailed(read.message, responseTime), call;
        }
        data := read.value;
        var entry := Entry(req.httpMethod, req.url.value, if req.headers.Some? then req.headers.value else map[],
                           StoredBody(req.body), ResponseText(data), status, responseTime, clock.now);
        var _ := store.Insert(entry, storageFails);
        reply := Executed(data, status, headers, responseTime);
    }
  }
}
