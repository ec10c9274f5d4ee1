/** Whole runs of one client and one server joined by two lossless FIFO carriers, in every
    interleaving of their sends and receives. */
module RpcRuns {
  import opened Bytes
  import opened Conventions
  import opened Rpc

  datatype Invocation = Invocation(service: text, op: text, payload: seq<byte>, auth: Option<text>)

  datatype Handled = Handled(request: RpcRequest, outcome: HandlerOutcome)

  /** `waiting`: the client is inside `Call`, after sending. `reply`: the server is inside
      `ServeOne`, after its handler. The last three fields are histories. */
  datatype System = System(
    nextId: u64,
    waiting: bool,
    toServer: seq<seq<byte>>,
    reply: Option<seq<byte>>,
    toClient: seq<seq<byte>>,
    calls: seq<Invocation>,
    handled: seq<Handled>,
    results: seq<Result<RpcResponse, CallError>>)

  const START := System(1, false, [], None, [], [], [], [])

  /** One atomic move. `ServerReceive` carries whatever its handler would answer, so a handler
      may keep state and be nondeterministic; `description` is the text of a decode error. */
  datatype Step =
    | ClientSend(call: Invocation)
    | ServerReceive(outcome: HandlerOutcome, description: text)
    | ServerSend
    | ClientReceive

  function RequestOf(call: Invocation, id: Option<u64>): RpcRequest {
    RpcRequest(call.service, call.op, id, call.payload, call.auth)
  }

  predicate Enabled(s: System, step: Step) {
    match step
    case ClientSend(_) => !s.waiting
    case ServerReceive(_, _) => s.reply == None && s.toServer != []
    case ServerSend => s.reply.Some?
    case ClientReceive => s.waiting && s.toClient != []
  }

  /** `RpcClient.Call` is `ClientSend` then `ClientReceive`; `RpcServer.ServeOne` is
      `ServerReceive` then `ServerSend`. A receive blocks until a frame is there. */
  function Do(s: System, step: Step, multiplexed: bool): System
    requires Enabled(s, step)
  {
    match step
    case ClientSend(call) =>
      var request := RequestOf(call, if multiplexed then Some(s.nextId) else None);
      s.(nextId := if multiplexed then Successor(s.nextId) else s.nextId, waiting := true,
         toServer := s.toServer + [EncodeRequest(request)], calls := s.calls + [call])
    case ServerReceive(outcome, description) =>
      var response := Answer(s.toServer[0], _ => outcome, _ => description);
      s.(toServer := s.toServer[1..], reply := Some(EncodeResponse(response)),
         handled := match DecodeRequest(s.toServer[0])
                    case Ok(request) => s.handled + [Handled(request, outcome)]
                    case Err(_) => s.handled)
    case ServerSend => s.(reply := None, toClient := s.toClient + [s.reply.value])
    case ClientReceive =>
      s.(waiting := false, toClient := s.toClient[1..], results := s.results + [CallResult(Some(s.toClient[0]))])
  }

  /** The state a list of moves leads to, if each is enabled in its turn. */
  function Execute(s: System, steps: seq<Step>, multiplexed: bool): Option<System>
    decreases |steps|
  {
    if steps == [] then Some(s)
    else if !Enabled(s, steps[0]) then None
    else Execute(Do(s, steps[0], multiplexed), steps[1..], multiplexed)
  }

  /** Strings are valid UTF-8, on both sides. */
  predicate StepSendable(step: Step) {
    match step
    case ClientSend(call) => RequestSendable(RequestOf(call, None))
    case ServerReceive(outcome, _) => ResponseSendable(ResponseTo(None, outcome))
    case _ => true
  }

  // ---- what a run looks like -------------------------------------------------------------------------

  /** Call `i`, counted from 0, carries id `i + 1` on a multiplexed carrier and none otherwise. */
  function IdOf(i: nat, multiplexed: bool): Option<u64> {
    if !multiplexed then None else if i + 1 < 0x1_0000_0000_0000_0000 then Some(i + 1) else Some(0)
  }

  /** What `Call` returns for a handler's outcome. */
  function Delivered(id: Option<u64>, outcome: HandlerOutcome): Result<RpcResponse, CallError> {
    match outcome
    case Reply(variant, payload) => Ok(RpcResponse(id, Status(0), Some(variant), None, payload))
    case Transport(status, message) =>
      if status.code == 0 then Ok(RpcResponse(id, status, None, Some(message), []))
      else Err(StatusError(status.Name(), status.code, message))
  }

  /** The handler has seen the calls in order, each once and with its own id, and the client has
      been given the outcomes of its own calls, in order. */
  ghost predicate InStep(s: System, multiplexed: bool) {
    && |s.results| <= |s.handled| <= |s.calls|
    && (forall i :: 0 <= i < |s.handled| ==> s.handled[i].request == RequestOf(s.calls[i], IdOf(i, multiplexed)))
    && (forall i :: 0 <= i < |s.results| ==> s.results[i] == Delivered(IdOf(i, multiplexed), s.handled[i].outcome))
  }

  function Count(b: bool): nat {
    if b then 1 else 0
  }

  /** Exactly one frame is on its way while the client waits, and none otherwise. */
  ghost predicate Invariant(s: System, multiplexed: bool) {
    && InStep(s, multiplexed)
    && |s.calls| < 0x1_0000_0000_0000_0000
    && Some(s.nextId) == (if multiplexed then IdOf(|s.calls|, true) else Some(1))
    && |s.toServer| + Count(s.reply.Some?) + |s.toClient| == Count(s.waiting)
    && |s.calls| == |s.handled| + |s.toServer|
    && |s.handled| == |s.results| + Count(s.reply.Some?) + |s.toClient|
    && (s.toServer != [] ==>
          && var last := RequestOf(s.calls[|s.calls| - 1], IdOf(|s.calls| - 1, multiplexed));
             RequestSendable(last) && s.toServer == [EncodeRequest(last)])
    && (s.reply.Some? || s.toClient != [] ==>
          && var response := ResponseTo(IdOf(|s.handled| - 1, multiplexed), s.handled[|s.handled| - 1].outcome);
             && ResponseSendable(response)
             && (s.reply.Some? ==> s.reply.value == EncodeResponse(response))
             && (s.toClient != [] ==> s.toClient == [EncodeResponse(response)]))
  }

  lemma ClientSendKeepsInvariant(s: System, step: Step, multiplexed: bool)
    requires Invariant(s, multiplexed) && Enabled(s, step) && StepSendable(step) && step.ClientSend?
    requires |Do(s, step, multiplexed).calls| < 0x1_0000_0000_0000_0000
    ensures Invariant(Do(s, step, multiplexed), multiplexed)
  {
    hide EncodeRequest, DecodeRequest, EncodeResponse, DecodeResponse, Sendable;
  }

  lemma ServerReceiveKeepsInvariant(s: System, step: Step, multiplexed: bool)
    requires Invariant(s, multiplexed) && Enabled(s, step) && StepSendable(step) && step.ServerReceive?
    requires |Do(s, step, multiplexed).calls| < 0x1_0000_0000_0000_0000
    ensures Invariant(Do(s, step, multiplexed), multiplexed)
  {
    hide EncodeRequest, DecodeRequest, EncodeResponse, DecodeResponse, Sendable;
    RequestRoundTrip(RequestOf(s.calls[|s.calls| - 1], IdOf(|s.calls| - 1, multiplexed)));
  }

  lemma ServerSendKeepsInvariant(s: System, step: Step, multiplexed: bool)
    requires Invariant(s, multiplexed) && Enabled(s, step) && StepSendable(step) && step.ServerSend?
    requires |Do(s, step, multiplexed).calls| < 0x1_0000_0000_0000_0000
    ensures Invariant(Do(s, step, multiplexed), multiplexed)
  {
    hide EncodeRequest, DecodeRequest, EncodeResponse, DecodeResponse, Sendable;
  }

  lemma ClientReceiveKeepsInvariant(s: System, step: Step, multiplexed: bool)
    requires Invariant(s, multiplexed) && Enabled(s, step) && StepSendable(step) && step.ClientReceive?
    requires |Do(s, step, multiplexed).calls| < 0x1_0000_0000_0000_0000
    ensures Invariant(Do(s, step, multiplexed), multiplexed)
  {
    hide EncodeRequest, DecodeRequest, EncodeResponse, DecodeResponse, Sendable;
    ResponseRoundTrip(ResponseTo(IdOf(|s.handled| - 1, multiplexed), s.handled[|s.handled| - 1].outcome));
  }

  lemma StepKeepsInvariant(s: System, step: Step, multiplexed: bool)
    requires Invariant(s, multiplexed) && Enabled(s, step) && StepSendable(step)
    requires |Do(s, step, multiplexed).calls| < 0x1_0000_0000_0000_0000
    ensures Invariant(Do(s, step, multiplexed), multiplexed)
  {
    hide Invariant, Do, Enabled, StepSendable;
    match step {
      case ClientSend(_) => ClientSendKeepsInvariant(s, step, multiplexed);
      case ServerReceive(_, _) => ServerReceiveKeepsInvariant(s, step, multiplexed);
      case ServerSend => ServerSendKeepsInvariant(s, step, multiplexed);
      case ClientReceive => ClientReceiveKeepsInvariant(s, step, multiplexed);
    }
  }

  lemma CallsOnlyGrow(s: System, steps: seq<Step>, multiplexed: bool)
    requires Execute(s, steps, multiplexed).Some?
    ensures |s.calls| <= |Execute(s, steps, multiplexed).value.calls|
    decreases |steps|
  {
    hide EncodeRequest, EncodeResponse, Answer, CallResult;
    if steps != [] {
      CallsOnlyGrow(Do(s, steps[0], multiplexed), steps[1..], multiplexed);
    }
  }

  lemma {:induction false} RunKeepsInvariant(s: System, steps: seq<Step>, multiplexed: bool)
    requires Invariant(s, multiplexed) && (forall step | step in steps :: StepSendable(step))
    requires Execute(s, steps, multiplexed).Some?
    requires |Execute(s, steps, multiplexed).value.calls| < 0x1_0000_0000_0000_0000
    ensures Invariant(Execute(s, steps, multiplexed).value, multiplexed)
    decreases |steps|
  {
    hide Invariant, Do, StepSendable;
    if steps != [] {
      assert steps[0] in steps;
      CallsOnlyGrow(Do(s, steps[0], multiplexed), steps[1..], multiplexed);
      StepKeepsInvariant(s, steps[0], multiplexed);
      RunKeepsInvariant(Do(s, steps[0], multiplexed), steps[1..], multiplexed);
    }
  }

  /** In every interleaving of fewer than 2^64 calls the handler runs once per call in order, ids
      count up from 1, each `Call` gets the outcome of its own request, and nothing is lost:
      once the client is idle, every call has been handled and answered. */
  lemma EveryRunIsInStep(steps: seq<Step>, multiplexed: bool)
    requires forall step | step in steps :: StepSendable(step)
    requires Execute(START, steps, multiplexed).Some?
    requires |Execute(START, steps, multiplexed).value.calls| < 0x1_0000_0000_0000_0000
    ensures var s := Execute(START, steps, multiplexed).value;
            && InStep(s, multiplexed)
            && (!s.waiting ==> |s.results| == |s.handled| == |s.calls|)
  {
    RunKeepsInvariant(START, steps, multiplexed);
  }

  /** No run gets stuck: some move other than a new call is enabled while the client waits. */
  lemma NoRunDeadlocks(steps: seq<Step>, multiplexed: bool)
    requires forall step | step in steps :: StepSendable(step)
    requires Execute(START, steps, multiplexed).Some?
    requires |Execute(START, steps, multiplexed).value.calls| < 0x1_0000_0000_0000_0000
    ensures var s := Execute(START, steps, multiplexed).value;
            s.waiting ==> Enabled(s, ServerSend) || Enabled(s, ClientReceive)
                          || forall outcome, description :: Enabled(s, ServerReceive(outcome, description))
  {
    RunKeepsInvariant(START, steps, multiplexed);
  }

  // ---- the methods and the moves ------------------------------------------------------------------------

  predicate IsServerMove(step: Step) {
    step.ServerReceive? || step.ServerSend?
  }

  lemma {:induction false} ServerMovesKeepClient(s: System, steps: seq<Step>, multiplexed: bool)
    requires (forall step | step in steps :: IsServerMove(step)) && Execute(s, steps, multiplexed).Some?
    ensures var s' := Execute(s, steps, multiplexed).value;
            s'.nextId == s.nextId && s'.waiting == s.waiting && s'.calls == s.calls && s'.results == s.results
    decreases |steps|
  {
    hide EncodeRequest, EncodeResponse, Answer, CallResult, DecodeRequest;
    if steps != [] {
      assert IsServerMove(steps[0]);
      ServerMovesKeepClient(Do(s, steps[0], multiplexed), steps[1..], multiplexed);
    }
  }

  /** What `Call` promises is what `ClientSend` and `ClientReceive` do, whatever the server does in
      between; a receive that blocks finds the frames that arrive meanwhile. */
  lemma {:induction false} CallIsTwoMoves(
      s: System, call: Invocation, between: seq<Step>, multiplexed: bool, after: ClientSide, r: Result<RpcResponse,
          CallError>)
    requires Enabled(s, ClientSend(call)) && forall step | step in between :: IsServerMove(step)
    requires Execute(Do(s, ClientSend(call), multiplexed), between, multiplexed).Some?
    requires Enabled(Execute(Do(s, ClientSend(call), multiplexed), between, multiplexed).value, ClientReceive)
    requires var arrived := Execute(Do(s, ClientSend(call), multiplexed), between, multiplexed).value.toClient;
             CallsOnce(call.service, call.op, call.payload, call.auth, multiplexed,
               ClientSide(s.nextId, s.toServer, arrived), after, r)
    ensures var sent := Do(s, ClientSend(call), multiplexed);
            var end := Do(Execute(sent, between, multiplexed).value, ClientReceive, multiplexed);
            && after == ClientSide(end.nextId, sent.toServer, end.toClient)
            && end.results == s.results + [r] && end.calls == s.calls + [call] && !end.waiting
  {
    hide EncodeRequest, CallResult, Execute;
    ServerMovesKeepClient(Do(s, ClientSend(call), multiplexed), between, multiplexed);
  }

  lemma {:induction false} ClientMovesKeepServer(s: System, steps: seq<Step>, multiplexed: bool)
    requires (forall step | step in steps :: !IsServerMove(step)) && Execute(s, steps, multiplexed).Some?
    ensures var s' := Execute(s, steps, multiplexed).value; s'.reply == s.reply && s'.handled == s.handled
    decreases |steps|
  {
    hide EncodeRequest, EncodeResponse, Answer, CallResult, DecodeRequest;
    if steps != [] {
      assert !IsServerMove(steps[0]);
      ClientMovesKeepServer(Do(s, steps[0], multiplexed), steps[1..], multiplexed);
    }
  }

  /** What `ServeOne` promises is what `ServerReceive`, with what its handler answers, and `ServerSend`
      do, whatever the client does in between. */
  lemma {:induction false} ServeIsTwoMoves(
      s: System, handler: RpcRequest -> HandlerOutcome, describe: EnvelopeError -> text,
      outcome: HandlerOutcome, description: text, between: seq<Step>, multiplexed: bool, after: ServerSide,
          served: bool)
    requires Enabled(s, ServerReceive(outcome, description)) && forall step | step in between :: !IsServerMove(step)
    requires match DecodeRequest(s.toServer[0])
             case Ok(request) => outcome == handler(request)
             case Err(e) => description == describe(e)
    requires Execute(Do(s, ServerReceive(outcome, description), multiplexed), between, multiplexed).Some?
    requires var queued := Execute(Do(s, ServerReceive(outcome, description), multiplexed), between,
         multiplexed).value.toClient;
             ServesOnce(handler, describe, ServerSide(queued, s.toServer), after, served)
    ensures var received := Do(s, ServerReceive(outcome, description), multiplexed);
            var ready := Execute(received, between, multiplexed).value;
            && served && Enabled(ready, ServerSend)
            && after == ServerSide(Do(ready, ServerSend, multiplexed).toClient, received.toServer)
            && ready.handled == match DecodeRequest(s.toServer[0])
                               case Ok(request) => s.handled + [Handled(request, handler(request))]
                               case Err(_) => s.handled
  {
    hide EncodeResponse, DecodeRequest, Execute;
    ClientMovesKeepServer(Do(s, ServerReceive(outcome, description), multiplexed), between, multiplexed);
  }
}
