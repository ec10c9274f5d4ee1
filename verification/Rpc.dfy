/** CSIL-RPC envelopes, client and server: transports/go/rpc.go. */
module Rpc {
  import opened Bytes
  import opened GoCbor
  import opened GoRoundTrip
  import opened Conventions
  import opened Carrier

  // ---- envelopes ---------------------------------------------------------------------------------

  datatype RpcRequest = RpcRequest(service: text, op: text, id: Option<u64>, payload: seq<byte>, auth: Option<text>)

  datatype RpcResponse =
    RpcResponse(id: Option<u64>, status: Status, variant: Option<text>, error: Option<text>, payload: seq<byte>)

  datatype RpcPush = RpcPush(service: text, event: text, payload: seq<byte>)

  function RequestFields(r: RpcRequest): seq<Field> {
    [Field("v", Some(CUint(VERSION))), Field("service", Some(CText(r.service))), Field("op", Some(CText(r.op))),
     Field("payload", Some(Tag24(r.payload))), Field("id", OptUint(r.id)), Field("auth", OptText(r.auth))]
  }

  function EncodeRequest(r: RpcRequest): seq<byte> {
    EncodeFields(RequestFields(r))
  }

  function DecodeRequest(b: seq<byte>): Result<RpcRequest, EnvelopeError> {
    var v :- Envelope(b);
    var version :- GetUint(v, "v");
    var _ :- CheckVersion(version);
    var payload :- Required(v, "payload");
    var service :- GetText(v, "service");
    var op :- GetText(v, "op");
    Ok(RpcRequest(service, op, GetUintOpt(v, "id"), payload, GetTextOpt(v, "auth")))
  }

  /** A tag-24 field that must be there. */
  function Required(v: Value, key: string): Result<seq<byte>, EnvelopeError> {
    match MapGet(v, key)
    case None => Err(Malformed(key))
    case Some(p) => Untag24(p)
  }

  function ResponseFields(r: RpcResponse): seq<Field> {
    [Field("v", Some(CUint(VERSION))), Field("status", Some(CInt(r.status.code))),
        Field("payload", Some(Tag24(r.payload))),
     Field("id", OptUint(r.id)), Field("variant", OptText(r.variant)), Field("error", OptText(r.error))]
  }

  function EncodeResponse(r: RpcResponse): seq<byte> {
    EncodeFields(ResponseFields(r))
  }

  function DecodeResponse(b: seq<byte>): Result<RpcResponse, EnvelopeError> {
    var v :- Envelope(b);
    var version :- GetUint(v, "v");
    var _ :- CheckVersion(version);
    var payload :- match MapGet(v, "payload") case None => Ok([]) case Some(p) => Untag24(p);
    var status :- GetInt(v, "status");
    Ok(RpcResponse(GetUintOpt(v, "id"), Status(status), GetTextOpt(v, "variant"), GetTextOpt(v, "error"), payload))
  }

  function PushFields(p: RpcPush): seq<Field> {
    [Field("v", Some(CUint(VERSION))), Field("service", Some(CText(p.service))), Field("event", Some(CText(p.event))),
     Field("payload", Some(Tag24(p.payload)))]
  }

  function EncodePush(p: RpcPush): seq<byte> {
    EncodeFields(PushFields(p))
  }

  function DecodePush(b: seq<byte>): Result<RpcPush, EnvelopeError> {
    var v :- Envelope(b);
    var version :- GetUint(v, "v");
    var _ :- CheckVersion(version);
    var payload :- Required(v, "payload");
    var service :- GetText(v, "service");
    var event :- GetText(v, "event");
    Ok(RpcPush(service, event, payload))
  }

  predicate RequestSendable(r: RpcRequest) {
    Sendable(r.service) && Sendable(r.op) && |r.payload| <= MAX_INT64 && OptSendable(r.auth)
  }

  predicate ResponseSendable(r: RpcResponse) {
    OptSendable(r.variant) && OptSendable(r.error) && |r.payload| <= MAX_INT64
  }

  predicate PushSendable(p: RpcPush) {
    Sendable(p.service) && Sendable(p.event) && |p.payload| <= MAX_INT64
  }

  /** Every request, whichever optional fields it has, decodes back to itself. */
  lemma RequestRoundTrip(r: RpcRequest)
    requires RequestSendable(r)
    ensures DecodeRequest(EncodeRequest(r)) == Ok(r)
  {
    hide Envelope, MapGet, EncodeFields, WellNamed, ValuesSendable, Sendable, Tag24;
    var fields := RequestFields(r);
    RequestFieldsFit(r);
    FieldsReadBack(fields);
    UntagsItself(r.payload);
    var v := Envelope(EncodeFields(fields)).value;
    assert MapGet(v, fields[0].name) == NormalOpt(fields[0].val);
    assert MapGet(v, fields[1].name) == NormalOpt(fields[1].val);
    assert MapGet(v, fields[2].name) == NormalOpt(fields[2].val);
    assert MapGet(v, fields[3].name) == NormalOpt(fields[3].val);
    assert MapGet(v, fields[4].name) == NormalOpt(fields[4].val);
    assert MapGet(v, fields[5].name) == NormalOpt(fields[5].val);
  }

  lemma RequestFieldsFit(r: RpcRequest)
    requires RequestSendable(r)
    ensures WellNamed(RequestFields(r)) && ValuesSendable(RequestFields(r))
    ensures Normal(Tag24(r.payload)) == Tag24(r.payload)
  {
    hide InMemory, Acceptable, Sendable, Tag24;
    PayloadSendable(r.payload);
    NumbersSendable();
    TextSendable(r.service);
    TextSendable(r.op);
    if r.auth.Some? { TextSendable(r.auth.value); }
  }

  /** Every response decodes back to itself, for every 64-bit status code. */
  lemma ResponseRoundTrip(r: RpcResponse)
    requires ResponseSendable(r)
    ensures DecodeResponse(EncodeResponse(r)) == Ok(r)
  {
    hide Envelope, MapGet, EncodeFields, WellNamed, ValuesSendable, Sendable, Tag24;
    var fields := ResponseFields(r);
    ResponseFieldsFit(r);
    FieldsReadBack(fields);
    UntagsItself(r.payload);
    var v := Envelope(EncodeFields(fields)).value;
    assert MapGet(v, fields[0].name) == NormalOpt(fields[0].val);
    assert MapGet(v, fields[1].name) == NormalOpt(fields[1].val);
    assert MapGet(v, fields[2].name) == NormalOpt(fields[2].val);
    assert MapGet(v, fields[3].name) == NormalOpt(fields[3].val);
    assert MapGet(v, fields[4].name) == NormalOpt(fields[4].val);
    assert MapGet(v, fields[5].name) == NormalOpt(fields[5].val);
  }

  lemma ResponseFieldsFit(r: RpcResponse)
    requires ResponseSendable(r)
    ensures WellNamed(ResponseFields(r)) && ValuesSendable(ResponseFields(r))
    ensures Normal(Tag24(r.payload)) == Tag24(r.payload)
  {
    hide InMemory, Acceptable, Sendable, Tag24;
    PayloadSendable(r.payload);
    NumbersSendable();
    if r.variant.Some? { TextSendable(r.variant.value); }
    if r.error.Some? { TextSendable(r.error.value); }
  }

  /** Every push decodes back to itself. */
  lemma PushRoundTrip(p: RpcPush)
    requires PushSendable(p)
    ensures DecodePush(EncodePush(p)) == Ok(p)
  {
    hide Envelope, MapGet, EncodeFields, WellNamed, ValuesSendable, Sendable, Tag24;
    var fields := PushFields(p);
    PushFieldsFit(p);
    FieldsReadBack(fields);
    UntagsItself(p.payload);
    var v := Envelope(EncodeFields(fields)).value;
    assert MapGet(v, fields[0].name) == NormalOpt(fields[0].val);
    assert MapGet(v, fields[1].name) == NormalOpt(fields[1].val);
    assert MapGet(v, fields[2].name) == NormalOpt(fields[2].val);
    assert MapGet(v, fields[3].name) == NormalOpt(fields[3].val);
  }

  lemma PushFieldsFit(p: RpcPush)
    requires PushSendable(p)
    ensures WellNamed(PushFields(p)) && ValuesSendable(PushFields(p))
    ensures Normal(Tag24(p.payload)) == Tag24(p.payload)
  {
    hide InMemory, Acceptable, Sendable, Tag24;
    PayloadSendable(p.payload);
    NumbersSendable();
    TextSendable(p.service);
    TextSendable(p.event);
  }

  // ---- client and server ------------------------------------------------------------------------------

  /** What `Call` reports: a response, or why there is none. */
  datatype CallError =
    | Closed
    | BadResponse(cause: EnvelopeError)
    | StatusError(status: string, code: i64, message: text)

  function AsTransportError(r: RpcResponse): Option<CallError> {
    if r.status.IsOk() then None
    else Some(StatusError(r.status.Name(), r.status.code, if r.error.Some? then r.error.value else []))
  }

  /** The result of `Call` once the next inbound frame, if any, is known. */
  function CallResult(frame: Option<seq<byte>>): Result<RpcResponse, CallError> {
    match frame
    case None => Err(Closed)
    case Some(bytes) =>
      match DecodeResponse(bytes)
      case Err(e) => Err(BadResponse(e))
      case Ok(r) => if AsTransportError(r).Some? then Err(AsTransportError(r).value) else Ok(r)
  }

  /** What a handler returns: a typed reply, or a transport status. */
  datatype HandlerOutcome = Reply(variant: text, payload: seq<byte>) | Transport(status: Status, message: text)

  function ResponseTo(id: Option<u64>, outcome: HandlerOutcome): RpcResponse {
    match outcome
    case Reply(variant, payload) => RpcResponse(id, Status(0), Some(variant), None, payload)
    case Transport(status, message) => RpcResponse(id, status, None, Some(message), [])
  }

  const MALFORMED_ENVELOPE := Status(1)

  /** The response `ServeOne` writes for a frame; `describe` stands for the error's text. */
  function Answer(
      frame: seq<byte>, handler: RpcRequest -> HandlerOutcome, describe: EnvelopeError -> text): RpcResponse
  {
    match DecodeRequest(frame)
    case Ok(req) => ResponseTo(req.id, handler(req))
    case Err(e) => RpcResponse(None, MALFORMED_ENVELOPE, None, Some(describe(e)), [])
  }

  /** `nextID++` on a uint64. */
  function Successor(id: u64): u64 {
    if id == 0xFFFF_FFFF_FFFF_FFFF then 0 else id + 1
  }

  /** What a client keeps and the two queues of its carrier. */
  datatype ClientSide = ClientSide(nextId: u64, outbound: seq<seq<byte>>, inbound: seq<seq<byte>>)

  /** One `Call`: its request goes out, the next inbound frame decides the result. */
  predicate CallsOnce(
      service: text, op: text, payload: seq<byte>, auth: Option<text>, multiplexed: bool,
      before: ClientSide, after: ClientSide, r: Result<RpcResponse, CallError>)
  {
    var id := if multiplexed then Some(before.nextId) else None;
    && after.nextId == (if multiplexed then Successor(before.nextId) else before.nextId)
    && after.outbound == before.outbound + [EncodeRequest(RpcRequest(service, op, id, payload, auth))]
    && after.inbound == (if before.inbound == [] then [] else before.inbound[1..])
    && r == CallResult(if before.inbound == [] then None else Some(before.inbound[0]))
  }

  /** The two queues of a server's carrier. */
  datatype ServerSide = ServerSide(outbound: seq<seq<byte>>, inbound: seq<seq<byte>>)

  /** One `ServeOne`: the next inbound frame, if any, is answered. */
  ghost predicate ServesOnce(
      handler: RpcRequest -> HandlerOutcome, describe: EnvelopeError -> text,
      before: ServerSide, after: ServerSide, served: bool)
  {
    && (served <==> before.inbound != [])
    && (!served ==> after == before)
    && (served ==>
          && after.inbound == before.inbound[1..]
          && after.outbound == before.outbound + [EncodeResponse(Answer(before.inbound[0], handler, describe))])
  }

  class RpcClient {
    const carrier: LoopbackFrameCarrier
    const multiplexed: bool
    var nextId: u64

    constructor (carrier: LoopbackFrameCarrier, multiplexed: bool)
      ensures this.carrier == carrier && this.multiplexed == multiplexed && nextId == 1
    {
      this.carrier := carrier;
      this.multiplexed := multiplexed;
      nextId := 1;
    }

    function Side(): ClientSide
      reads this, carrier
    {
      ClientSide(nextId, carrier.outbound, carrier.inbound)
    }

    method Call(service: text, op: text, payload: seq<byte>, auth: Option<text>)
        returns (r: Result<RpcResponse, CallError>)
      modifies this, carrier
      ensures CallsOnce(service, op, payload, auth, multiplexed, old(Side()), Side(), r)
    {
      var req := RpcRequest(service, op, None, payload, auth);
      if multiplexed {
        req := req.(id := Some(nextId));
        nextId := Successor(nextId);
      }
      carrier.SendFrame(EncodeRequest(req));
      var frame := carrier.RecvFrame();
      r := CallResult(frame);
    }
  }

  class RpcServer {
    const carrier: LoopbackFrameCarrier

    constructor (carrier: LoopbackFrameCarrier)
      ensures this.carrier == carrier
    {
      this.carrier := carrier;
    }

    function Side(): ServerSide
      reads this, carrier
    {
      ServerSide(carrier.outbound, carrier.inbound)
    }

    method ServeOne(handler: RpcRequest -> HandlerOutcome, describe: EnvelopeError -> text) returns (served: bool)
      modifies carrier
      ensures ServesOnce(handler, describe, old(Side()), Side(), served)
    {
      var frame := carrier.RecvFrame();
      if frame.None? {
        return false;
      }
      var response;
      match DecodeRequest(frame.value) {
        case Ok(req) =>
          var outcome := handler(req);
          response := ResponseTo(req.id, outcome);
        case Err(e) =>
          response := RpcResponse(None, MALFORMED_ENVELOPE, None, Some(describe(e)), []);
      }
      carrier.SendFrame(EncodeResponse(response));
      served := true;
    }
  }
}
