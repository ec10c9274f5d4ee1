/** Which map envelopes the RPC decoders accept, and as what, whoever wrote them. */
module RpcAcceptance {
  import opened Bytes
  import opened GoCbor
  import opened GoRoundTrip
  import opened Conventions
  import opened Rpc

  // ---- what a field says -----------------------------------------------------------------------------------

  function Number(v: Option<Value>): Option<int> {
    match v
    case Some(CUint(n)) => Some(n)
    case Some(CInt(i)) => Some(i)
    case _ => None
  }

  function Unsigned(v: Option<Value>): Option<u64> {
    if Number(v).Some? && Number(v).value >= 0 then Some(Number(v).value) else None
  }

  /** A number as 64 signed bits; a large one becomes negative. */
  function Signed(v: Option<Value>): Option<i64> {
    if Number(v) == None then None
    else Some(if Number(v).value > MAX_INT64 then Number(v).value - 0x1_0000_0000_0000_0000 else Number(v).value)
  }

  function Str(v: Option<Value>): Option<text> {
    match v
    case Some(CText(s)) => Some(s)
    case _ => None
  }

  /** Bytes under tag 24. */
  function Embedded(v: Option<Value>): Option<seq<byte>> {
    match v
    case Some(CTag(num, CBytes(b))) => if num == 24 then Some(b) else None
    case _ => None
  }

  predicate Readable(v: Option<Value>) {
    v.Some? ==> InMemory(v.value) && Acceptable(v.value, MAX_DEPTH - 1)
  }

  /** Nothing of this changes on the way. */
  lemma SaysTheSame(v: Option<Value>)
    ensures var sent := NormalOpt(v);
            && (sent.None? <==> v.None?)
            && (sent.Some? ==>
                  && AsU64(sent.value) == Unsigned(v) && AsI64(sent.value) == Signed(v)
                  && (sent.value.CText? <==> Str(v).Some?) && (sent.value.CText? ==> Some(sent.value.s) == Str(v))
                  && (Untag24(sent.value).Ok? <==> Embedded(v).Some?)
                  && (Untag24(sent.value).Ok? ==> Some(Untag24(sent.value).value) == Embedded(v)))
            && (v.None? ==> Unsigned(v) == None && Signed(v) == None && Str(v) == None && Embedded(v) == None)
  {
    if v.Some? && v.value.CTag? {
      BytesStay(v.value.content);
      assert Normal(v.value) == CTag(v.value.num, Normal(v.value.content));
    }
  }

  lemma BytesStay(v: Value)
    ensures Normal(v).CBytes? <==> v.CBytes?
    ensures v.CBytes? ==> Normal(v) == v
  {
  }

  // ---- the decoders --------------------------------------------------------------------------------------

  /** A request is accepted if it has the right version, a service and an operation, and a payload; an id or
      a credential of the wrong kind is as good as none. */
  lemma {:induction false} RequestAccepted(
      v: Option<Value>, service: Option<Value>, op: Option<Value>, payload: Option<Value>,
      id: Option<Value>, auth: Option<Value>)
    requires Readable(v) && Readable(service) && Readable(op) && Readable(payload) && Readable(id) && Readable(auth)
    ensures var fields := [Field("v", v), Field("service", service), Field("op", op), Field("payload", payload),
                           Field("id", id), Field("auth", auth)];
            var r := DecodeRequest(EncodeFields(fields));
            if Number(v) == Some(1) && Str(service).Some? && Str(op).Some? && Embedded(payload).Some? then
              r == Ok(RpcRequest(Str(service).value, Str(op).value, Unsigned(id), Embedded(payload).value, Str(auth)))
            else if Unsigned(v).Some? && Number(v) != Some(1) then r == Err(UnsupportedVersion(Unsigned(v).value))
            else r.Err?
  {
    hide Envelope, EncodeFields, WellNamed, ValuesSendable, Untag24, AsU64, AsI64, Number, Unsigned, Signed, Str,
      Embedded, MapGet;
    var fields := [Field("v", v), Field("service", service), Field("op", op), Field("payload", payload),
                   Field("id", id), Field("auth", auth)];
    RequestNamed(fields);
    FieldsReadable(fields);
    FieldsReadBack(fields);
    var m := Envelope(EncodeFields(fields)).value;
    assert MapGet(m, fields[0].name) == NormalOpt(v) && MapGet(m, fields[1].name) == NormalOpt(service);
    assert MapGet(m, fields[2].name) == NormalOpt(op) && MapGet(m, fields[3].name) == NormalOpt(payload);
    assert MapGet(m, fields[4].name) == NormalOpt(id) && MapGet(m, fields[5].name) == NormalOpt(auth);
    SaysTheSame(v);
    SaysTheSame(service);
    SaysTheSame(op);
    SaysTheSame(payload);
    SaysTheSame(id);
    SaysTheSame(auth);
    VersionIs(v);
  }

  lemma RequestNamed(fields: seq<Field>)
    requires |fields| == 6
    requires fields[0].name == "v" && fields[1].name == "service" && fields[2].name == "op"
          && fields[3].name == "payload" && fields[4].name == "id" && fields[5].name == "auth"
    ensures WellNamed(fields)
  {
  }

  lemma FieldsReadable(fields: seq<Field>)
    requires forall f | f in fields :: Readable(f.val)
    ensures ValuesSendable(fields)
  {
  }

  lemma VersionIs(v: Option<Value>)
    ensures Number(v) == Some(1) <==> Unsigned(v) == Some(VERSION)
    ensures Unsigned(v).Some? ==> Number(v) == Some(Unsigned(v).value)
  {
  }

  /** A response needs version and status; without a payload it has an empty one, and one that is no tagged
      byte string is refused. */
  lemma {:induction false} ResponseAccepted(
      v: Option<Value>, status: Option<Value>, payload: Option<Value>, id: Option<Value>,
      variant: Option<Value>, error: Option<Value>)
    requires Readable(v) && Readable(status) && Readable(payload) && Readable(id) && Readable(variant)
         && Readable(error)
    ensures var fields := [Field("v", v), Field("status", status), Field("payload", payload), Field("id", id),
                           Field("variant", variant), Field("error", error)];
            var r := DecodeResponse(EncodeFields(fields));
            if Number(v) == Some(1) && Signed(status).Some? && (payload.None? || Embedded(payload).Some?) then
              r == Ok(RpcResponse(Unsigned(id), Status(Signed(status).value), Str(variant), Str(error),
                        if payload.None? then [] else Embedded(payload).value))
            else if Unsigned(v).Some? && Number(v) != Some(1) then r == Err(UnsupportedVersion(Unsigned(v).value))
            else r.Err?
  {
    hide Envelope, EncodeFields, WellNamed, ValuesSendable, Untag24, AsU64, AsI64, Number, Unsigned, Signed, Str,
      Embedded, MapGet;
    var fields := [Field("v", v), Field("status", status), Field("payload", payload), Field("id", id),
                   Field("variant", variant), Field("error", error)];
    ResponseNamed(fields);
    FieldsReadable(fields);
    FieldsReadBack(fields);
    var m := Envelope(EncodeFields(fields)).value;
    assert MapGet(m, fields[0].name) == NormalOpt(v) && MapGet(m, fields[1].name) == NormalOpt(status);
    assert MapGet(m, fields[2].name) == NormalOpt(payload) && MapGet(m, fields[3].name) == NormalOpt(id);
    assert MapGet(m, fields[4].name) == NormalOpt(variant) && MapGet(m, fields[5].name) == NormalOpt(error);
    SaysTheSame(v);
    SaysTheSame(status);
    SaysTheSame(payload);
    SaysTheSame(id);
    SaysTheSame(variant);
    SaysTheSame(error);
    VersionIs(v);
  }

  lemma ResponseNamed(fields: seq<Field>)
    requires |fields| == 6
    requires fields[0].name == "v" && fields[1].name == "status" && fields[2].name == "payload"
          && fields[3].name == "id" && fields[4].name == "variant" && fields[5].name == "error"
    ensures WellNamed(fields)
  {
  }

  /** A push needs version, service, event and payload. */
  lemma {:induction false} PushAccepted(
      v: Option<Value>, service: Option<Value>, event: Option<Value>, payload: Option<Value>)
    requires Readable(v) && Readable(service) && Readable(event) && Readable(payload)
    ensures var fields :=
              [Field("v", v), Field("service", service), Field("event", event), Field("payload", payload)];
            var r := DecodePush(EncodeFields(fields));
            if Number(v) == Some(1) && Str(service).Some? && Str(event).Some? && Embedded(payload).Some? then
              r == Ok(RpcPush(Str(service).value, Str(event).value, Embedded(payload).value))
            else if Unsigned(v).Some? && Number(v) != Some(1) then r == Err(UnsupportedVersion(Unsigned(v).value))
            else r.Err?
  {
    hide Envelope, EncodeFields, WellNamed, ValuesSendable, Untag24, AsU64, AsI64, Number, Unsigned, Signed, Str,
      Embedded, MapGet;
    var fields := [Field("v", v), Field("service", service), Field("event", event), Field("payload", payload)];
    PushNamed(fields);
    FieldsReadable(fields);
    FieldsReadBack(fields);
    var m := Envelope(EncodeFields(fields)).value;
    assert MapGet(m, fields[0].name) == NormalOpt(v) && MapGet(m, fields[1].name) == NormalOpt(service);
    assert MapGet(m, fields[2].name) == NormalOpt(event) && MapGet(m, fields[3].name) == NormalOpt(payload);
    SaysTheSame(v);
    SaysTheSame(service);
    SaysTheSame(event);
    SaysTheSame(payload);
    VersionIs(v);
  }

  lemma PushNamed(fields: seq<Field>)
    requires |fields| == 4
    requires fields[0].name == "v" && fields[1].name == "service" && fields[2].name == "event"
          && fields[3].name == "payload"
    ensures WellNamed(fields)
  {
  }

  // ---- malformed requests --------------------------------------------------------------------------------

  /** What the server answers to a frame that is no request reaches the client as a status error that says
      so. */
  lemma {:induction false} MalformedIsReported(
      frame: seq<byte>, handler: RpcRequest -> HandlerOutcome, describe: EnvelopeError -> text)
    requires DecodeRequest(frame).Err? && Sendable(describe(DecodeRequest(frame).error))
    ensures CallResult(Some(EncodeResponse(Answer(frame, handler, describe))))
         == Err(StatusError("malformed-envelope", 1, describe(DecodeRequest(frame).error)))
  {
    hide DecodeRequest, EncodeResponse, DecodeResponse;
    var answer := Answer(frame, handler, describe);
    ResponseRoundTrip(answer);
  }
}
