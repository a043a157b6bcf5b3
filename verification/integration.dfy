/**
 * The widget and the proxy together: pressing Start posts an empty request
 * to the proxy, and the proxy's answer decides whether the client starts.
 */
module Integration {
  import opened Wrappers
  import opened Json
  import CallSession
  import CredentialProxy

  /**
   * The widget's credential request: a bare POST with no body. The
   * browser supplies the page's Origin header. The widget's own `agentId`
   * setting is not part of it.
   */
  function WidgetRequest(origin: Option<string>): (r: CredentialProxy.Request)
    ensures r.httpMethod == "POST" && r.body.None?
  {
    CredentialProxy.Request("POST", None, origin)
  }

  /** `await resp.json()` on the proxy's answer: an empty body does not parse. */
  function WidgetReads(b: CredentialProxy.Body): (f: CallSession.FetchResult)
    ensures b.NoBody? <==> f.FetchThrew?
    ensures b.JsonBody? ==> f == CallSession.Fetched(b.value)
  {
    match b
    case NoBody => CallSession.FetchThrew
    case JsonBody(v) => CallSession.Fetched(v)
  }

  /**
   * One press of Start, with the proxy in the loop. The widget's guard comes
   * first, and the client can only start when the upstream call succeeded.
   */
  function WidgetAttempt(s: CallSession.Session, origin: Option<string>, cfg: CredentialProxy.Config,
                         up: CredentialProxy.UpstreamOutcome, clientRejects: bool): (t: CallSession.Transition)
    ensures !s.hasClient || s.connecting ==> t == CallSession.Transition(s, [])
    ensures CallSession.StartCount(t.calls) > 0 ==> up.UpstreamOk?
    ensures CallSession.StartCount(t.calls) <= 1 && CallSession.StopCall !in t.calls
    ensures t.next.callActive == s.callActive && t.next.hasClient == s.hasClient
  {
    var h := CredentialProxy.Handle(WidgetRequest(origin), cfg, up);
    CallSession.StartWebCall(s, WidgetReads(h.response.body), clientRejects)
  }

  /**
   * Whatever the page, the widget's request makes the proxy forward the
   * configured default agent (or none) and the page's origin: no agent id
   * travels from the widget.
   */
  lemma WidgetForwardsDefaultAgent(origin: Option<string>, cfg: CredentialProxy.Config, up: CredentialProxy.UpstreamOutcome)
    ensures var h := CredentialProxy.Handle(WidgetRequest(origin), cfg, up);
            h.forwarded.Some? &&
            h.forwarded.value.payload ==
              CredentialProxy.Payload(FromString(cfg.defaultAgentId),
                                      JObj(map["origin" := JStr(CredentialProxy.OriginOrUnknown(origin))]))
  {
  }

  /**
   * When the upstream call fails the proxy answers 500 with an `error`
   * object; the widget finds no token there, never starts the client and
   * stops connecting.
   */
  lemma UpstreamFailureNeverStartsClient(s: CallSession.Session, origin: Option<string>, cfg: CredentialProxy.Config,
                                         data: Option<Json>, msg: Option<string>, rejects: bool)
    requires s.hasClient && !s.connecting
    ensures var t := WidgetAttempt(s, origin, cfg, CredentialProxy.UpstreamFailed(data, msg), rejects);
            t.calls == [] && !t.next.connecting && t.next.callActive == s.callActive
  {
    var h := CredentialProxy.Handle(WidgetRequest(origin), cfg, CredentialProxy.UpstreamFailed(data, msg));
    assert h.response.body.JsonBody?;
    assert "access_token" !in h.response.body.value.fields;
  }

  /** When upstream answers with a truthy `access_token`, the widget starts the client once with exactly that token. */
  lemma UpstreamTokenStartsClient(s: CallSession.Session, origin: Option<string>, cfg: CredentialProxy.Config,
                                  data: Json, rejects: bool)
    requires s.hasClient && !s.connecting
    requires data.JObj? && "access_token" in data.fields && Truthy(data.fields["access_token"])
    ensures var t := WidgetAttempt(s, origin, cfg, CredentialProxy.UpstreamOk(data), rejects);
            t.calls == [CallSession.StartCall(CallSession.ConfigFor(data.fields["access_token"]))] &&
            t.next.connecting == !rejects
  {
  }
}
