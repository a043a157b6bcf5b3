/**
 * The call lifecycle of `WebCallComponent`: the React state `callActive`
 * and `connecting`, the `agentTalking` flag lifted into the parent widget,
 * and whether the real-time client has been created yet. Each handler is
 * one atomic step from a session to a session plus the calls it made on
 * the client, in order.
 */
module CallSession {
  import opened Wrappers
  import opened Json

  /* ---------------- State, inputs and client calls ---------------- */

  /**
   * `hasClient` is `retellClient !== null`: false until the mount effect has
   * created the client. `agentTalking` is the parent's flag, set through
   * `onAgentTalking`.
   */
  datatype Session = Session(hasClient: bool, callActive: bool, connecting: bool, agentTalking: bool)

  /** The first render: no client yet, no call, nobody talking. */
  const Initial: Session := Session(false, false, false, false)

  /** The five events the component subscribes to on the client. */
  datatype SdkEvent = CallStarted | CallEnded | AgentStartTalking | AgentStopTalking | ClientError

  /**
   * What `await fetch(...)` followed by `await resp.json()` produced: the
   * parsed body, or a rejection (network failure, a body that is not JSON).
   */
  datatype FetchResult = FetchThrew | Fetched(data: Json)

  /** The options object passed to `startCall`. */
  datatype CallConfig = CallConfig(accessToken: Json, inputDeviceId: string, outputDeviceId: string, sampleRate: nat)

  /** Calls the component makes on the client, in the order it makes them. */
  datatype ClientCall = StartCall(config: CallConfig) | StopCall

  /**
   * Everything that drives the component: the client's events, the mount
   * effect, and the two buttons. A press of Start carries the outcome of
   * the credential request and whether the client's `startCall` rejects.
   */
  datatype Input =
    | Sdk(event: SdkEvent)
    | Mount
    | StartPressed(fetch: FetchResult, clientRejects: bool)
    | StopPressed

  /** A step's effect: the next session and the client calls made on the way. */
  datatype Transition = Transition(next: Session, calls: seq<ClientCall>)

  /** The device and sample-rate defaults the component always uses. */
  const DefaultDevice: string := "default"
  const SampleRate: nat := 24000

  function ConfigFor(token: Json): (c: CallConfig)
    ensures c.accessToken == token
    ensures c.inputDeviceId == "default" && c.outputDeviceId == "default"
    ensures c.sampleRate == 24000
  {
    CallConfig(token, DefaultDevice, DefaultDevice, SampleRate)
  }

  /** How many times the client was asked to start. */
  function StartCount(calls: seq<ClientCall>): nat {
    if |calls| == 0 then 0
    else (if calls[0].StartCall? then 1 else 0) + StartCount(calls[1..])
  }

  lemma {:induction false} StartCountAppend(a: seq<ClientCall>, b: seq<ClientCall>)
    ensures StartCount(a + b) == StartCount(a) + StartCount(b)
  {
    if |a| == 0 {
      assert a + b == b;
    } else {
      assert (a + b)[1..] == a[1..] + b;
      StartCountAppend(a[1..], b);
    }
  }

  /* ---------------- Handlers ---------------- */

  /** The effect body: the client is created and the handlers are attached. */
  function OnMount(s: Session): (t: Transition)
    ensures t.next.hasClient
    ensures t.next.callActive == s.callActive && t.next.connecting == s.connecting
    ensures t.next.agentTalking == s.agentTalking
    ensures t.calls == []
  {
    Transition(s.(hasClient := true), [])
  }

  /** The five event handlers. They run whatever the state; only `error` touches the client. */
  function OnSdkEvent(s: Session, e: SdkEvent): (t: Transition)
    ensures t.next.hasClient == s.hasClient
    ensures e == CallStarted ==>
      t.next.callActive && !t.next.connecting && t.next.agentTalking == s.agentTalking && t.calls == []
    ensures e == CallEnded ==>
      !t.next.callActive && !t.next.connecting && !t.next.agentTalking && t.calls == []
    ensures e == ClientError ==>
      !t.next.callActive && !t.next.connecting && !t.next.agentTalking && t.calls == [StopCall]
    ensures e == AgentStartTalking ==>
      t.next.callActive == s.callActive && t.next.connecting == s.connecting && t.next.agentTalking && t.calls == []
    ensures e == AgentStopTalking ==>
      t.next.callActive == s.callActive && t.next.connecting == s.connecting && !t.next.agentTalking && t.calls == []
  {
    match e
    case CallStarted => Transition(s.(callActive := true, connecting := false), [])
    case CallEnded => Transition(s.(callActive := false, connecting := false, agentTalking := false), [])
    case AgentStartTalking => Transition(s.(agentTalking := true), [])
    case AgentStopTalking => Transition(s.(agentTalking := false), [])
    case ClientError => Transition(s.(callActive := false, connecting := false, agentTalking := false), [StopCall])
  }

  /**
   * The access token the component reads from the credential response, or
   * `None` when the attempt stops there: `data.access_token` is missing or
   * falsy, or `data` is `null`, so reading the property throws and the
   * `catch` takes over. Both ways end the same, so one `None` covers them.
   */
  function TokenOf(data: Json): (tok: Option<Json>)
    ensures tok.Some? <==> data.JObj? && "access_token" in data.fields && Truthy(data.fields["access_token"])
    ensures tok.Some? ==> tok.value == data.fields["access_token"]
  {
    if data.JNull? then None
    else
      var t := Member(data, "access_token");
      if Present(t) then t else None
  }

  /**
   * `startWebCall`. Nothing happens without a client or while connecting.
   * Otherwise `connecting` is set; with a token the client is started once
   * with the fixed defaults and `connecting` stays set until the client
   * reports back; a missing token, a failed request or a rejected
   * `startCall` clear `connecting` again. `callActive` is never read or
   * written here.
   */
  function StartWebCall(s: Session, fetch: FetchResult, clientRejects: bool): (t: Transition)
    ensures !s.hasClient || s.connecting ==> t == Transition(s, [])
    ensures t.next.hasClient == s.hasClient
    ensures t.next.callActive == s.callActive && t.next.agentTalking == s.agentTalking
    ensures StartCount(t.calls) <= 1 && StopCall !in t.calls
    ensures s.hasClient && !s.connecting ==>
      match fetch
      case FetchThrew => t.calls == [] && !t.next.connecting
      case Fetched(data) =>
        match TokenOf(data)
        case None => t.calls == [] && !t.next.connecting
        case Some(tok) => t.calls == [StartCall(ConfigFor(tok))] && t.next.connecting == !clientRejects
  {
    if !s.hasClient || s.connecting then Transition(s, [])
    else
      var pending := s.(connecting := true);
      match fetch
      case FetchThrew => Transition(pending.(connecting := false), [])
      case Fetched(data) =>
        match TokenOf(data)
        case None => Transition(pending.(connecting := false), [])
        case Some(tok) =>
          var started := [StartCall(ConfigFor(tok))];
          if clientRejects then Transition(pending.(connecting := false), started)
          else Transition(pending, started)
  }

  /** `stopWebCall`: asks the client to stop if there is one; the state is left to the events. */
  function StopWebCall(s: Session): (t: Transition)
    ensures t.next == s
    ensures s.hasClient ==> t.calls == [StopCall]
    ensures !s.hasClient ==> t.calls == []
  {
    if s.hasClient then Transition(s, [StopCall]) else Transition(s, [])
  }

  /**
   * The effect's cleanup on teardown: it stops the client the effect
   * created. A component torn down before its effect ran has no cleanup.
   */
  function Teardown(s: Session): (calls: seq<ClientCall>)
    ensures s.hasClient ==> calls == [StopCall]
    ensures StartCount(calls) == 0
  {
    if s.hasClient then [StopCall] else []
  }

  /**
   * One input to its handler. Only a press of Start can start the client,
   * and only once; only a press of Stop or the `error` event can stop it;
   * only the mount effect creates it.
   */
  function Step(s: Session, i: Input): (t: Transition)
    ensures |t.calls| <= 1 && StartCount(t.calls) <= 1
    ensures StartCount(t.calls) > 0 ==> i.StartPressed? && s.hasClient && !s.connecting
    ensures StopCall in t.calls ==> i == StopPressed || i == Sdk(ClientError)
    ensures t.next.hasClient == (s.hasClient || i == Mount)
  {
    match i
    case Sdk(e) => OnSdkEvent(s, e)
    case Mount => OnMount(s)
    case StartPressed(fetch, rejects) => StartWebCall(s, fetch, rejects)
    case StopPressed => StopWebCall(s)
  }

  /** The inputs applied in order, collecting every client call. */
  function Run(s: Session, inputs: seq<Input>): Transition
    decreases |inputs|
  {
    if |inputs| == 0 then Transition(s, [])
    else
      var before := Run(s, inputs[..|inputs| - 1]);
      var last := Step(before.next, inputs[|inputs| - 1]);
      Transition(last.next, before.calls + last.calls)
  }

  /* ---------------- The user interface's part ---------------- */

  /**
   * What the rendered controls allow: the Start button exists only while no
   * call is active and is disabled while connecting; the End button exists
   * only while a call is active. Client events and the mount effect are
   * always possible.
   */
  function Permitted(s: Session, i: Input): (ok: bool)
    ensures i.StartPressed? ==> (ok <==> StatusOf(s) == Idle)
    ensures i.StopPressed? ==> (ok <==> StatusOf(s) == Active)
    ensures i.Sdk? || i.Mount? ==> ok
  {
    match i
    case StartPressed(_, _) => !s.callActive && !s.connecting
    case StopPressed => s.callActive
    case _ => true
  }

  /** Every input of the run is one the user interface allows at that point. */
  predicate PermittedRun(s: Session, inputs: seq<Input>)
    decreases |inputs|
  {
    |inputs| == 0 ||
    (PermittedRun(s, inputs[..|inputs| - 1]) &&
     Permitted(Run(s, inputs[..|inputs| - 1]).next, inputs[|inputs| - 1]))
  }

  /* ---------------- The three-state view: idle, connecting, active ---------------- */

  datatype Status = Idle | Connecting | Active

  /** A call is never both active and still connecting. */
  predicate Valid(s: Session) {
    !(s.callActive && s.connecting)
  }

  function StatusOf(s: Session): Status {
    if s.callActive then Active else if s.connecting then Connecting else Idle
  }

  /**
   * The lifecycle the widget presents, as a table of its own, written
   * independently of the handlers: `call_started` makes the call active,
   * `call_ended` and `error` return to idle, and the two talking events
   * leave the status as it was.
   */
  function LifecycleStatusAfter(st: Status, e: SdkEvent): Status {
    match e
    case CallStarted => Active
    case CallEnded => Idle
    case ClientError => Idle
    case AgentStartTalking => st
    case AgentStopTalking => st
  }

  /** The handlers follow the lifecycle table and keep a valid session valid. */
  lemma EventsFollowLifecycleTable(s: Session, e: SdkEvent)
    requires Valid(s)
    ensures Valid(OnSdkEvent(s, e).next)
    ensures StatusOf(OnSdkEvent(s, e).next) == LifecycleStatusAfter(StatusOf(s), e)
  {
  }

  /** Every step the user interface allows keeps the session valid. */
  lemma StepPreservesValid(s: Session, i: Input)
    requires Valid(s) && Permitted(s, i)
    ensures Valid(Step(s, i).next)
  {
    if i.Sdk? {
      EventsFollowLifecycleTable(s, i.event);
    }
  }

  lemma {:induction false} RunPreservesValid(s: Session, inputs: seq<Input>)
    requires Valid(s) && PermittedRun(s, inputs)
    ensures Valid(Run(s, inputs).next)
    decreases |inputs|
  {
    if |inputs| > 0 {
      var init := inputs[..|inputs| - 1];
      RunPreservesValid(s, init);
      StepPreservesValid(Run(s, init).next, inputs[|inputs| - 1]);
    }
  }

  /**
   * The source's own guard checks `connecting` only: pressing Start while a
   * call is active would start the client a second time and leave the
   * session both active and connecting. Only the user interface, which
   * hides Start during a call, rules this out.
   */
  lemma GuardAloneAllowsStartWhileActive()
    ensures var s := Session(true, true, false, false);
            var t := StartWebCall(s, Fetched(JObj(map["access_token" := JStr("T")])), false);
            !Permitted(s, StartPressed(Fetched(JObj(map["access_token" := JStr("T")])), false)) &&
            StartCount(t.calls) == 1 && !Valid(t.next)
  {
  }

  /* ---------------- Properties of runs ---------------- */

  lemma RunSnoc(s: Session, inputs: seq<Input>, i: Input)
    ensures Run(s, inputs + [i]).next == Step(Run(s, inputs).next, i).next
    ensures Run(s, inputs + [i]).calls == Run(s, inputs).calls + Step(Run(s, inputs).next, i).calls
  {
    assert (inputs + [i])[..|inputs|] == inputs;
  }

  /** Whatever came before, a run whose last input is `call_ended` or `error` ends idle and silent. */
  lemma EndingEventLeavesIdle(s: Session, inputs: seq<Input>, e: SdkEvent)
    requires e == CallEnded || e == ClientError
    ensures var r := Run(s, inputs + [Sdk(e)]);
            StatusOf(r.next) == Idle && !r.next.agentTalking
  {
    RunSnoc(s, inputs, Sdk(e));
  }

  /** Start talking, stop talking, end: the agent is silent and the widget idle, from any session. */
  lemma TalkThenEnd(s: Session)
    ensures var r := Run(s, [Sdk(AgentStartTalking), Sdk(AgentStopTalking), Sdk(CallEnded)]);
            StatusOf(r.next) == Idle && !r.next.agentTalking && r.calls == []
  {
    var a, b, c := Sdk(AgentStartTalking), Sdk(AgentStopTalking), Sdk(CallEnded);
    RunSnoc(s, [], a);
    assert [] + [a] == [a];
    RunSnoc(s, [a], b);
    assert [a] + [b] == [a, b];
    RunSnoc(s, [a, b], c);
    assert [a, b] + [c] == [a, b, c];
  }

  /** Whether the input ends a call: `call_ended` or `error`. */
  predicate Ends(i: Input) {
    i == Sdk(CallEnded) || i == Sdk(ClientError)
  }

  /**
   * Once an attempt is under way (connecting or active), no run the user
   * interface allows starts the client again until the call ends: at most
   * one client session per attempt.
   */
  lemma {:induction false} NoSecondStartDuringAttempt(s: Session, inputs: seq<Input>)
    requires Valid(s) && (s.connecting || s.callActive)
    requires PermittedRun(s, inputs)
    requires forall k :: 0 <= k < |inputs| ==> !Ends(inputs[k])
    ensures StartCount(Run(s, inputs).calls) == 0
    ensures Run(s, inputs).next.connecting || Run(s, inputs).next.callActive
    decreases |inputs|
  {
    if |inputs| > 0 {
      var init := inputs[..|inputs| - 1];
      var i := inputs[|inputs| - 1];
      NoSecondStartDuringAttempt(s, init);
      var mid := Run(s, init);
      RunPreservesValid(s, init);
      var last := Step(mid.next, i);
      assert !Ends(i);
      assert StartCount(last.calls) == 0 && (last.next.connecting || last.next.callActive) by {
        match i
        case Sdk(e) =>
        case Mount =>
        case StartPressed(_, _) =>
        case StopPressed =>
      }
      StartCountAppend(mid.calls, last.calls);
    }
  }

  /** The code's guard on its own: while connecting, any number of presses of Start does nothing. */
  lemma {:induction false} PressesWhileConnectingDoNothing(s: Session, inputs: seq<Input>)
    requires s.connecting
    requires forall k :: 0 <= k < |inputs| ==> inputs[k].StartPressed?
    ensures Run(s, inputs) == Transition(s, [])
    decreases |inputs|
  {
    if |inputs| > 0 {
      PressesWhileConnectingDoNothing(s, inputs[..|inputs| - 1]);
    }
  }

  /**
   * A credential response `{ access_token: "T" }` on an idle, mounted
   * widget starts the client exactly once with "T" and the defaults.
   */
  lemma TokenStartsClient(s: Session, token: string)
    requires s.hasClient && !s.connecting && token != ""
    ensures var t := StartWebCall(s, Fetched(JObj(map["access_token" := JStr(token)])), false);
            t.calls == [StartCall(CallConfig(JStr(token), "default", "default", 24000))] &&
            t.next.connecting && t.next.callActive == s.callActive
  {
  }

  /** A response without `access_token` never starts the client and leaves the widget not connecting. */
  lemma MissingTokenNeverStarts(s: Session, data: Json, rejects: bool)
    requires !(data.JObj? && "access_token" in data.fields)
    ensures var t := StartWebCall(s, Fetched(data), rejects);
            StartCount(t.calls) == 0 && (s.hasClient && !s.connecting ==> !t.next.connecting) &&
            t.next.callActive == s.callActive
  {
  }

  /**
   * From the first render: the effect mounts the client, Start is pressed
   * and a token arrives, the client reports the call started. The call is
   * active, no longer connecting, and the client was started exactly once.
   */
  lemma FirstCallFromInitialRender(token: string)
    requires token != ""
    ensures var r := Run(Initial, [Mount, StartPressed(Fetched(JObj(map["access_token" := JStr(token)])), false), Sdk(CallStarted)]);
            StatusOf(r.next) == Active && Valid(r.next) && !r.next.agentTalking &&
            r.calls == [StartCall(CallConfig(JStr(token), "default", "default", 24000))]
  {
    var a, b, c := Mount, StartPressed(Fetched(JObj(map["access_token" := JStr(token)])), false), Sdk(CallStarted);
    RunSnoc(Initial, [], a);
    assert [] + [a] == [a];
    RunSnoc(Initial, [a], b);
    assert [a] + [b] == [a, b];
    RunSnoc(Initial, [a, b], c);
    assert [a, b] + [c] == [a, b, c];
  }
}
