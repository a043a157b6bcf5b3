/**
 * The serverless handler behind `POST /api/create-web-call`. It answers
 * cross-origin pre-flight requests, refuses every method but POST, and for
 * POST forwards `{ agent_id, metadata }` with the server's bearer secret to
 * the voice-agent API, returning that API's answer. The upstream call is a
 * parameter: the handler is given what the API would answer.
 */
module CredentialProxy {
  import opened Wrappers
  import opened Json

  /* ---------------- Requests, configuration, responses ---------------- */

  /** The parts of the incoming request the handler reads. `body` is `None` when absent. */
  datatype Request = Request(httpMethod: string, body: Option<Json>, origin: Option<string>)

  /** The process environment: the default agent id and the API secret, each possibly unset. */
  datatype Config = Config(defaultAgentId: Option<string>, apiKey: Option<string>)

  datatype Body = NoBody | JsonBody(value: Json)

  datatype Response = Response(status: nat, headers: seq<(string, string)>, body: Body)

  /** The request the handler sends upstream. */
  datatype UpstreamRequest = UpstreamRequest(url: string, payload: Json, authorization: string)

  /**
   * What the upstream call does: resolve with the response data, or reject
   * with an error that may carry a response's data and a message.
   */
  datatype UpstreamOutcome =
    | UpstreamOk(data: Json)
    | UpstreamFailed(responseData: Option<Json>, message: Option<string>)

  /** The response, and the upstream request when one was made. */
  datatype Handled = Handled(response: Response, forwarded: Option<UpstreamRequest>)

  const UpstreamUrl: string := "https://api.retellai.com/v2/create-web-call"

  /** The three headers set before anything else, on every request. */
  const CorsHeaders: seq<(string, string)> := [
    ("Access-Control-Allow-Origin", "*"),
    ("Access-Control-Allow-Methods", "POST, OPTIONS"),
    ("Access-Control-Allow-Headers", "Content-Type, Authorization")
  ]

  /* ---------------- Resolving the forwarded payload ---------------- */

  /** `req.body || {}`. */
  function EffectiveBody(body: Option<Json>): (b: Json)
    ensures Present(body) ==> b == body.value
    ensures !Present(body) ==> b == JObj(map[])
    ensures b != JNull
  {
    if Present(body) then body.value else JObj(map[])
  }

  /**
   * `body.agent_id || process.env.RETELL_AGENT_ID`: the request's agent id
   * when it is truthy, otherwise the configured default, which may be unset.
   * Nothing checks that an id results.
   */
  function ResolveAgentId(body: Json, defaultAgentId: Option<string>): (id: Option<Json>)
    ensures Present(Member(body, "agent_id")) ==> id == Member(body, "agent_id")
    ensures !Present(Member(body, "agent_id")) ==> id == FromString(defaultAgentId)
  {
    Or(Member(body, "agent_id"), FromString(defaultAgentId))
  }

  /** `req.headers.origin || 'unknown'`. */
  function OriginOrUnknown(origin: Option<string>): (o: string)
    ensures origin.Some? && origin.value != "" ==> o == origin.value
    ensures origin.None? || origin.value == "" ==> o == "unknown"
  {
    match origin
    case Some(x) => if x != "" then x else "unknown"
    case None => "unknown"
  }

  /** `body.metadata || { origin: ... }`. */
  function ResolveMetadata(body: Json, origin: Option<string>): (m: Json)
    ensures Present(Member(body, "metadata")) ==> Some(m) == Member(body, "metadata")
    ensures !Present(Member(body, "metadata")) ==> m == JObj(map["origin" := JStr(OriginOrUnknown(origin))])
    ensures Truthy(m)
  {
    Or(Member(body, "metadata"), Some(JObj(map["origin" := JStr(OriginOrUnknown(origin))]))).value
  }

  /**
   * The JSON sent upstream. A key whose value is `undefined` is dropped when
   * the object is serialised, so `agent_id` is present only when resolved.
   */
  function Payload(agentId: Option<Json>, metadata: Json): (p: Json)
    ensures p.JObj? && "metadata" in p.fields && p.fields["metadata"] == metadata
    ensures ("agent_id" in p.fields) == agentId.Some?
    ensures agentId.Some? ==> p.fields["agent_id"] == agentId.value
    ensures p.fields.Keys <= {"agent_id", "metadata"}
  {
    match agentId
    case Some(id) => JObj(map["agent_id" := id, "metadata" := metadata])
    case None => JObj(map["metadata" := metadata])
  }

  /** `Bearer ${process.env.RETELL_API_KEY}`; an unset key renders as "undefined". */
  function Authorization(apiKey: Option<string>): (a: string)
    ensures |a| >= 7 && a[..7] == "Bearer "
    ensures a[7..] == apiKey.GetOr("undefined")
  {
    "Bearer " + apiKey.GetOr("undefined")
  }

  /**
   * The forwarded request for a POST: the fixed URL, the bearer secret, and a
   * payload holding exactly the resolved agent id (when there is one) and the
   * resolved metadata.
   */
  function ForwardedRequest(req: Request, cfg: Config): (u: UpstreamRequest)
    ensures u.url == UpstreamUrl
    ensures u.authorization == Authorization(cfg.apiKey)
    ensures var body := EffectiveBody(req.body);
            var id := ResolveAgentId(body, cfg.defaultAgentId);
            u.payload.JObj? && u.payload.fields.Keys <= {"agent_id", "metadata"} &&
            "metadata" in u.payload.fields && u.payload.fields["metadata"] == ResolveMetadata(body, req.origin) &&
            ("agent_id" in u.payload.fields <==> id.Some?) &&
            (id.Some? ==> u.payload.fields["agent_id"] == id.value)
  {
    var body := EffectiveBody(req.body);
    UpstreamRequest(UpstreamUrl, Payload(ResolveAgentId(body, cfg.defaultAgentId), ResolveMetadata(body, req.origin)), Authorization(cfg.apiKey))
  }

  /* ---------------- Mapping the upstream answer ---------------- */

  /**
   * `err.response?.data || err.message || 'Unknown error'`: the upstream's
   * own error data when truthy, else the error's message when not empty,
   * else a fixed text.
   */
  function FailureMessage(responseData: Option<Json>, message: Option<string>): (m: Json)
    ensures Present(responseData) ==> m == responseData.value
    ensures !Present(responseData) && message.Some? && message.value != "" ==> m == JStr(message.value)
    ensures !Present(responseData) && (message.None? || message.value == "") ==> m == JStr("Unknown error")
    ensures Truthy(m)
  {
    Or(responseData, Or(FromString(message), Some(JStr("Unknown error")))).value
  }

  function ErrorBody(message: Json): Json {
    JObj(map["error" := message])
  }

  /* ---------------- The handler ---------------- */

  /**
   * The exported handler. The CORS headers are always set; OPTIONS ends
   * with 200 and no body; any other method but POST ends with 405; a POST
   * always calls upstream and ends with 200 and the upstream data, or with
   * 500 and the failure message. No path throws.
   */
  function Handle(req: Request, cfg: Config, upstream: UpstreamOutcome): (h: Handled)
    ensures h.response.headers == CorsHeaders
    ensures h.response.status in {200, 405, 500}
    ensures req.httpMethod == "OPTIONS" ==>
      h.response.status == 200 && h.response.body == NoBody && h.forwarded == None
    ensures req.httpMethod != "OPTIONS" && req.httpMethod != "POST" ==>
      h.response.status == 405 && h.response.body == JsonBody(ErrorBody(JStr("Method not allowed"))) &&
      h.forwarded == None
    ensures req.httpMethod == "POST" ==> h.forwarded == Some(ForwardedRequest(req, cfg))
    ensures req.httpMethod == "POST" && upstream.UpstreamOk? ==>
      h.response.status == 200 && h.response.body == JsonBody(upstream.data)
    ensures req.httpMethod == "POST" && upstream.UpstreamFailed? ==>
      h.response.status == 500 &&
      h.response.body == JsonBody(ErrorBody(FailureMessage(upstream.responseData, upstream.message)))
  {
    if req.httpMethod == "OPTIONS" then
      Handled(Response(200, CorsHeaders, NoBody), None)
    else if req.httpMethod != "POST" then
      Handled(Response(405, CorsHeaders, JsonBody(ErrorBody(JStr("Method not allowed")))), None)
    else
      var forwarded := ForwardedRequest(req, cfg);
      match upstream
      case UpstreamOk(data) =>
        Handled(Response(200, CorsHeaders, JsonBody(data)), Some(forwarded))
      case UpstreamFailed(responseData, message) =>
        Handled(Response(500, CorsHeaders, JsonBody(ErrorBody(FailureMessage(responseData, message)))), Some(forwarded))
  }

  /* ---------------- Properties ---------------- */

  /** The status depends only on the method and, for POST, on whether upstream succeeded. */
  lemma StatusDecision(req: Request, cfg: Config, upstream: UpstreamOutcome)
    ensures Handle(req, cfg, upstream).response.status ==
      (if req.httpMethod == "OPTIONS" then 200
       else if req.httpMethod != "POST" then 405
       else if upstream.UpstreamOk? then 200 else 500)
    ensures Handle(req, cfg, upstream).forwarded.Some? <==> req.httpMethod == "POST"
  {
  }

  /** The agent id forwarded for a POST: the request's when truthy, else the configured default, possibly none. */
  lemma ForwardedAgentId(req: Request, cfg: Config, upstream: UpstreamOutcome)
    requires req.httpMethod == "POST"
    ensures var p := Handle(req, cfg, upstream).forwarded.value.payload;
            var requested := Member(EffectiveBody(req.body), "agent_id");
            p.JObj? &&
            (Present(requested) ==> "agent_id" in p.fields && p.fields["agent_id"] == requested.value) &&
            (!Present(requested) && cfg.defaultAgentId.Some? ==>
               "agent_id" in p.fields && p.fields["agent_id"] == JStr(cfg.defaultAgentId.value)) &&
            (!Present(requested) && cfg.defaultAgentId.None? ==> "agent_id" !in p.fields)
  {
  }

  /** The metadata forwarded for a POST: the request's when truthy, else an object naming the caller's origin. */
  lemma ForwardedMetadata(req: Request, cfg: Config, upstream: UpstreamOutcome)
    requires req.httpMethod == "POST"
    ensures var p := Handle(req, cfg, upstream).forwarded.value.payload;
            var requested := Member(EffectiveBody(req.body), "metadata");
            p.JObj? && "metadata" in p.fields &&
            (Present(requested) ==> p.fields["metadata"] == requested.value) &&
            (!Present(requested) && req.origin.Some? && req.origin.value != "" ==>
               p.fields["metadata"] == JObj(map["origin" := JStr(req.origin.value)])) &&
            (!Present(requested) && (req.origin.None? || req.origin.value == "") ==>
               p.fields["metadata"] == JObj(map["origin" := JStr("unknown")]))
  {
  }

  /** A POST with a truthy agent id forwards the same payload whatever the configured default. */
  lemma RequestAgentIdOverridesDefault(req: Request, cfg1: Config, cfg2: Config, up: UpstreamOutcome)
    requires req.httpMethod == "POST"
    requires Present(Member(EffectiveBody(req.body), "agent_id"))
    ensures Handle(req, cfg1, up).forwarded.value.payload == Handle(req, cfg2, up).forwarded.value.payload
  {
  }

  /** A POST with truthy metadata forwards the same payload whatever the Origin header. */
  lemma RequestMetadataOverridesOrigin(body: Option<Json>, o1: Option<string>, o2: Option<string>, cfg: Config, up: UpstreamOutcome)
    requires Present(Member(EffectiveBody(body), "metadata"))
    ensures Handle(Request("POST", body, o1), cfg, up).forwarded.value.payload ==
            Handle(Request("POST", body, o2), cfg, up).forwarded.value.payload
  {
  }

  /** An empty body with default agent "A1" and no Origin header forwards `{ agent_id: "A1", metadata: { origin: "unknown" } }`. */
  lemma EmptyBodyUsesDefaults(up: UpstreamOutcome, key: Option<string>)
    ensures Handle(Request("POST", Some(JObj(map[])), None), Config(Some("A1"), key), up).forwarded.value.payload ==
            JObj(map["agent_id" := JStr("A1"), "metadata" := JObj(map["origin" := JStr("unknown")])])
  {
  }

  /** A body `{ agent_id: "A2", metadata: { foo: 1 } }` is forwarded exactly, ignoring the default. */
  lemma SuppliedBodyForwardedExactly(up: UpstreamOutcome, cfg: Config, origin: Option<string>)
    ensures var body := JObj(map["agent_id" := JStr("A2"), "metadata" := JObj(map["foo" := JNum(1)])]);
            Handle(Request("POST", Some(body), origin), cfg, up).forwarded.value.payload == body
  {
    var body := JObj(map["agent_id" := JStr("A2"), "metadata" := JObj(map["foo" := JNum(1)])]);
    var p := Handle(Request("POST", Some(body), origin), cfg, up).forwarded.value.payload;
    assert p.fields.Keys == body.fields.Keys;
  }
}
