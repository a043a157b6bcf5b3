# Voice-call widget: colour decoding, call lifecycle and credential proxy

This project models the logic at the heart of an embeddable voice-call widget and proves properties of it in Dafny. Around that logic sit React rendering, animation and network calls, which are not modelled. Three pieces are modelled:

- **`hexToRgba`** (`hex_color.dfy`, module `HexColor`) turns an accent colour such as `#ca25ae` or `#c2a` into `rgba(r, g, b, alpha)`. The steps are:
  - remove the first `#`;
  - double every digit of a three-digit remainder;
  - parse the result in base 16;
  - take three bytes out of the 24-bit value with shifts and a mask.

  The proofs cover byte bounds and lossless decoding, with a six-digit encoder as the inverse. They also cover the short form and a reader that recovers the formatted text.
- **The call lifecycle of `WebCallComponent`** (`call_session.dfy`, module `CallSession`) is a session record. It holds whether the client exists, `callActive`, `connecting`, and the parent's `agentTalking` flag. A pure step function drives it from these inputs:
  - the real-time client's five events;
  - the mount effect;
  - the Start and End buttons.

  Each step also returns the calls made on the client (`startCall` with its configuration, `stopCall`). The proofs cover the event table, the re-entrancy guard and what the rendered controls add to it, runs of several inputs, and the credential outcomes.
- **The credential proxy `api/create-web-call`** (`credential_proxy.dfy`, module `CredentialProxy`) is one pure handler from a request, the environment configuration and the upstream API's outcome. It returns the status, headers, body and the upstream request it made. The proofs cover:
  - the CORS headers;
  - method dispatch (OPTIONS gets 200, other non-POST methods get 405);
  - the fallbacks for `agent_id` and `metadata`;
  - the mapping of upstream success or failure to 200 or 500.

`integration.dfy` (module `Integration`) connects the widget's credential request to the proxy and the proxy's answer to the session. `json.dfy` holds JSON values and the JavaScript semantics both sides rely on: truthiness, `a || b`, and reading a property that may be missing. `wrappers.dfy` holds `Option`, which stands for `undefined`.

Some of the code's behaviour is easy to get wrong when reading it quickly. The model follows the code:

- **Agent id.** The proxy never fails for want of an agent id. It forwards whatever `body.agent_id || RETELL_AGENT_ID` resolved, possibly nothing (`api/create-web-call.js:21`). `CredentialProxy.ForwardedAgentId` states what is forwarded in each case.
- **Start while active.** The guard in `startWebCall` checks only `connecting` (`src/callWidget.jsx:269`). A call that is active is protected only because the Start button is not rendered then (`src/callWidget.jsx:350-356`). `CallSession.GuardAloneAllowsStartWhileActive` shows the guard alone letting a second start through, and `CallSession.Permitted` models the rendered controls.
- **The lifecycle.** The widget shows three statuses: idle, connecting and active (active wins over connecting). Pressing Start on an idle widget makes it connecting; `call_started` makes it active; `call_ended` and `error` make it idle; the two talking events leave the status alone. `CallSession.LifecycleStatusAfter` writes this table down on its own, and `CallSession.EventsFollowLifecycleTable` proves the handlers follow it. `call_started` makes the call active from any status, not only from connecting.
- **Parameters of the credential request.** The widget posts an empty request, and its `agentId` setting is never sent (`Integration.WidgetForwardsDefaultAgent`).
- **Failed start.** A failed credential request or a rejected `startCall` is only logged. The widget returns to idle and raises no error signal.

## Model

| member | source | states |
|---|---|---|
| HexColor.StripHashRemovesFirst | src/callWidget.jsx:9 | Only the first `#` is removed: without one the text is unchanged; with one, the result is the text minus exactly the first `#`, one character shorter |
| HexColor.StripHash | src/callWidget.jsx:9 | Text without `#` is unchanged; text with one loses exactly one character |
| HexColor.Double | src/callWidget.jsx:10 | Every character is written twice: the result is twice as long and positions 2i and 2i+1 both hold the i-th character |
| HexColor.SixDigits | src/callWidget.jsx:10 | `parseInt` reads six hex digits: a six-digit colour as it is, and a three-digit colour with digit i at positions 2i and 2i+1 |
| HexColor.HexValue | src/callWidget.jsx:10 | The base-16 value of n digits is below 16^n |
| HexColor.HexValueAppend | src/callWidget.jsx:10 | Digits are read most significant first: the value of a followed by b is value(a)·16^len(b) + value(b) |
| HexColor.ShortFormIsDoubled | src/callWidget.jsx:9-10 | A three-digit colour decodes exactly like its doubled six-digit spelling (`#abc` like `#aabbcc`) |
| HexColor.ShortFormChannels | src/callWidget.jsx:10-13 | Each digit d of a short colour becomes a channel of value 17·d |
| HexColor.Decode | src/callWidget.jsx:10-13 | For well-formed input every channel is a byte, each channel equals the value of its two digits, and r·65536 + g·256 + b equals the parsed number, so nothing is lost |
| HexColor.DecodeInjective | src/callWidget.jsx:10-13 | Two colours decode to the same channels exactly when their parsed values are equal |
| HexColor.DecodeEncode | src/callWidget.jsx:10-13 | Decoding the six-digit spelling of any byte triple gives the triple back |
| HexColor.EncodeDecode | src/callWidget.jsx:10-13 | A lower-case six-digit colour is spelled back exactly from its decoded channels |
| HexColor.DefaultAccentColour | src/callWidget.jsx:368 | The default accent `#ca25ae` decodes to (202, 37, 174) |
| HexColor.DecimalRoundTrip | src/callWidget.jsx:14 | The decimal rendering of a channel reads back as the same number |
| HexColor.Format | src/callWidget.jsx:14 | The rendered text `rgba(r, g, b, alpha)` is read back by an independent reader as exactly the same channels and alpha |
| HexColor.ParseRgbaOnlyFormat | src/callWidget.jsx:14 | Conversely, the only text the reader accepts for given channels and alpha is their rendering: canonical decimals without leading zeros, `, ` separators, the `rgba(` prefix and `)` |
| HexColor.HexToRgba | src/callWidget.jsx:8-14 | The result reads back as `rgba` of the decoded channels with the given alpha passed through unchanged, and it is the only text that reads back so |
| HexColor.DefaultAlphaRendered | src/callWidget.jsx:8 | Without an alpha argument the rendered alpha is `1` |
| CallSession.OnMount | src/callWidget.jsx:232-234 | The mount effect creates the client and changes nothing else |
| CallSession.OnSdkEvent | src/callWidget.jsx:236-261 | `call_started` makes the call active and stops connecting with talking unchanged; `call_ended` and `error` clear all three flags, and only `error` calls `stopCall` (exactly once); the talking events change only `agentTalking` |
| CallSession.EventsFollowLifecycleTable | src/callWidget.jsx:236-261 | On a valid session every event keeps it valid and moves the status as the lifecycle table says: `call_started` to active, `call_ended` and `error` to idle, the talking events nowhere |
| CallSession.Step | src/callWidget.jsx:232-295 | Each input makes at most one client call. Only a press of Start that passes the guard can start the client; only End or `error` can stop it; only the mount effect creates it |
| CallSession.Permitted | src/callWidget.jsx:350-356 | The rendered controls allow Start exactly when the widget is idle and End exactly when a call is active; client events and the mount effect are always possible |
| CallSession.TokenOf | src/callWidget.jsx:274-276 | The attempt carries on exactly when the response is an object whose `access_token` is truthy, and then with that token |
| CallSession.StartWebCall | src/callWidget.jsx:268-291 | Without a client, or while connecting, nothing happens. Otherwise: a failed request or a missing token clears `connecting` and starts nothing; a token starts the client once with it, and `connecting` stays set unless `startCall` rejects. `callActive` is never touched and `stopCall` is never issued |
| CallSession.ConfigFor | src/callWidget.jsx:281-286 | The client is started with the token, device `default` for input and output, and sample rate 24000 |
| CallSession.StopWebCall | src/callWidget.jsx:293-295 | With a client, exactly one `stopCall`; without one, nothing; the state never changes |
| CallSession.Teardown | src/callWidget.jsx:263-265 | Teardown of a mounted component issues `stopCall` and never starts the client |
| CallSession.StepPreservesValid | src/callWidget.jsx:351-356 | Every input the rendered controls allow keeps a session from being both active and connecting |
| CallSession.RunPreservesValid | src/callWidget.jsx:351-356 | The same holds for every run of allowed inputs |
| CallSession.GuardAloneAllowsStartWhileActive | src/callWidget.jsx:269-270 | The code's guard lets Start through during an active call, starting the client again and leaving the session active and connecting; the rendered controls forbid that press |
| CallSession.NoSecondStartDuringAttempt | src/callWidget.jsx:269-270 | Once connecting or active, no allowed run without `call_ended`/`error` starts the client again, and the attempt stays under way |
| CallSession.PressesWhileConnectingDoNothing | src/callWidget.jsx:269 | While connecting, any number of Start presses changes nothing and calls nothing |
| CallSession.EndingEventLeavesIdle | src/callWidget.jsx:241-261 | After any history, a final `call_ended` or `error` leaves the widget idle and the agent silent |
| CallSession.TalkThenEnd | src/callWidget.jsx:241-253 | Start talking, stop talking, end: idle, silent and no client calls, from any session |
| CallSession.FirstCallFromInitialRender | src/callWidget.jsx:228-286 | From the first render: mount, Start with a token, then `call_started` leaves the call active and not connecting, with the client started exactly once with the token and the defaults |
| CallSession.TokenStartsClient | src/callWidget.jsx:281-286 | A response `{access_token: T}` starts the client exactly once with T and the defaults, and the widget stays connecting |
| CallSession.MissingTokenNeverStarts | src/callWidget.jsx:276-280 | A response without `access_token` never starts the client, clears `connecting` on an attempt that passed the guard, and leaves `callActive` alone |
| CredentialProxy.EffectiveBody | api/create-web-call.js:19 | A missing or falsy body is treated as `{}` |
| CredentialProxy.ResolveAgentId | api/create-web-call.js:21 | The request's `agent_id` when truthy, otherwise the configured default, which may be unset |
| CredentialProxy.OriginOrUnknown | api/create-web-call.js:29 | The Origin header when present and not empty, otherwise `unknown` |
| CredentialProxy.ResolveMetadata | api/create-web-call.js:29 | The request's `metadata` when truthy, otherwise `{origin: ...}`; the result is always truthy |
| CredentialProxy.Payload | api/create-web-call.js:27-30 | The upstream body holds `metadata` and holds `agent_id` exactly when one was resolved, and nothing else |
| CredentialProxy.Authorization | api/create-web-call.js:33 | `Bearer ` followed by the secret, or by `undefined` when it is unset |
| CredentialProxy.ForwardedRequest | api/create-web-call.js:25-37 | The upstream request goes to the fixed API address with the bearer secret; its payload holds the resolved metadata and the resolved agent id when there is one, and nothing else |
| CredentialProxy.FailureMessage | api/create-web-call.js:42 | The upstream error data when truthy, else a non-empty error message, else `Unknown error` |
| CredentialProxy.Handle | api/create-web-call.js:4-45 | Every request gets exactly the three CORS headers. OPTIONS: 200, empty body, no upstream call. Other non-POST: 405 `{error: "Method not allowed"}`, no upstream call. POST: always forwarded; 200 with the upstream data unchanged on success, 500 `{error: m}` on failure. No path throws |
| CredentialProxy.StatusDecision | api/create-web-call.js:10-43 | The status is a function of the method and upstream success alone, and upstream is called exactly for POST |
| CredentialProxy.ForwardedAgentId | api/create-web-call.js:21-28 | The forwarded `agent_id` is the request's when truthy, else the default, else absent; no configuration error is raised |
| CredentialProxy.ForwardedMetadata | api/create-web-call.js:19-29 | The forwarded `metadata` is the request's when truthy, else `{origin: O}` with the non-empty Origin header O, else `{origin: "unknown"}` |
| CredentialProxy.RequestAgentIdOverridesDefault | api/create-web-call.js:21 | With a truthy request `agent_id` the forwarded payload does not depend on the configuration |
| CredentialProxy.RequestMetadataOverridesOrigin | api/create-web-call.js:29 | With truthy request `metadata` the forwarded payload does not depend on the Origin header |
| CredentialProxy.EmptyBodyUsesDefaults | api/create-web-call.js:19-29 | `{}` with default agent `A1` and no Origin forwards `{agent_id: "A1", metadata: {origin: "unknown"}}` |
| CredentialProxy.SuppliedBodyForwardedExactly | api/create-web-call.js:19-29 | `{agent_id: "A2", metadata: {foo: 1}}` is forwarded exactly, whatever the default |
| Integration.WidgetRequest | src/callWidget.jsx:273 | The widget's credential request is a POST without a body |
| Integration.WidgetReads | src/callWidget.jsx:274 | An empty response body makes `resp.json()` reject; a JSON body is read as is |
| Integration.WidgetAttempt | src/callWidget.jsx:268-291 | One press of Start with the proxy in the loop: the guard comes first, the client starts at most once and only when the upstream call succeeded, and it is never stopped |
| Integration.WidgetForwardsDefaultAgent | src/callWidget.jsx:273 | The widget's request makes the proxy forward the configured default agent and the page's origin; the widget's own agent id never travels |
| Integration.UpstreamFailureNeverStartsClient | api/create-web-call.js:40-43 | An upstream failure reaches the widget as a body without a token: the client is never started and connecting is cleared |
| Integration.UpstreamTokenStartsClient | src/callWidget.jsx:275-286 | An upstream answer with a truthy `access_token` passes through the proxy and starts the client once with that token |

## Left out

- HexColor.HexToRgba: only input that is three or six hex digits once the first `#` is removed is modelled. `parseInt`'s prefix parsing and NaN results, and the 32-bit `>>` on values of eight or more digits, are not modelled. For the modelled input the value is below 2^24, so `>>` and `& 255` are division and remainder.
- HexColor.HexToRgba: alpha is modelled as the text it renders to (`1`, `0.32`). Number-to-text conversion of fractions is not modelled.
- The orb animation and `buildGlowBackground` (`src/callWidget.jsx:18-222`) are purely cosmetic: animation and gradient strings.
- Style objects, JSX rendering, the spinner and the panel layout are presentation. The only part kept is which buttons exist and when they are disabled (`CallSession.Permitted`).
- `src/index.js` is bootstrap: shadow DOM, stylesheet injection and reading attributes with `||` defaults.
- Network I/O (`fetch`, `axios.post`) is replaced by an outcome parameter: `CallSession.FetchResult` and `CredentialProxy.UpstreamOutcome`.
- The real-time client's audio and transport are out of scope. Only its five events and its start/stop calls appear.
- React's state scheduling and batching are not modelled, and neither is the interleaving of events with a suspended `startWebCall`. Each handler, including the whole of `startWebCall`, is one atomic step.
- The effect re-running when `onAgentTalking` changes (a new client replacing the old one) is not modelled. Mount happens once.
- Logging (`console.log`, `console.error`) is left out. Reading `process.env` becomes the explicit `CredentialProxy.Config`.
- JSON numbers are integers. Fractional numbers and NaN are not modelled.
- The headers the proxy sends upstream beyond `Authorization` (a fixed `Content-Type`) are not modelled.
