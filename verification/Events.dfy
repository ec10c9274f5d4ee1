/** CSIL-Events: verbose and compact events, control payloads and profile negotiation
    (transports/go/events.go). */
module Events {
  import opened Bytes
  import opened GoCbor
  import opened GoRoundTrip
  import opened Conventions

  datatype Profile = ProfileVerbose | ProfileCompact | ProfileUnknown(code: int)

  function ParseProfile(s: text): Option<Profile> {
    if s == Ascii("verbose") then Some(ProfileVerbose)
    else if s == Ascii("compact") then Some(ProfileCompact)
    else None
  }

  datatype Event = Event(
    service: Option<text>,
    serviceOrd: Option<u64>,
    event: Option<text>,
    opOrd: Option<u64>,
    id: Option<u64>,
    payload: seq<byte>)

  // ---- events ------------------------------------------------------------------------------------

  function EncodeEvent(e: Event, profile: Profile): Result<seq<byte>, EnvelopeError> {
    match profile
    case ProfileVerbose =>
      if e.event == None then Err(Malformed("event")) else Ok(EncodeFields(VerboseFields(e)))
    case ProfileCompact =>
      if e.serviceOrd == None then Err(Malformed("service ordinal"))
      else if e.opOrd == None then Err(Malformed("op ordinal"))
      else Ok(Encode(CArray(CompactItems(e))))
    case ProfileUnknown(_) => Err(Malformed("profile"))
  }

  function VerboseFields(e: Event): seq<Field>
    requires e.event.Some?
  {
    [Field("event", Some(CText(e.event.value))), Field("payload", Some(Tag24(e.payload))),
     Field("service", OptText(e.service)), Field("id", OptUint(e.id))]
  }

  function CompactItems(e: Event): seq<Value>
    requires e.serviceOrd.Some? && e.opOrd.Some?
  {
    [CUint(e.serviceOrd.value), CUint(e.opOrd.value)]
    + (if e.id.Some? then [CUint(e.id.value)] else [])
    + [Tag24(e.payload)]
  }

  function DecodeEvent(b: seq<byte>, profile: Profile): Result<Event, EnvelopeError> {
    match profile
    case ProfileVerbose => DecodeVerboseEvent(b)
    case ProfileCompact => DecodeCompactEvent(b)
    case ProfileUnknown(_) => Err(Malformed("profile"))
  }

  function DecodeVerboseEvent(b: seq<byte>): Result<Event, EnvelopeError> {
    var v :- Envelope(b);
    var payload :- match MapGet(v, "payload") case None => Err(Malformed("payload")) case Some(p) => Untag24(p);
    var event :- GetText(v, "event");
    Ok(Event(GetTextOpt(v, "service"), None, Some(event), None, GetUintOpt(v, "id"), payload))
  }

  /** Three items are ordinals and payload; four have a correlation id before the payload. */
  function DecodeCompactEvent(b: seq<byte>): Result<Event, EnvelopeError> {
    var v :- Envelope(b);
    if !v.CArray? || |v.items| !in {3, 4} then Err(Malformed("compact event array"))
    else if AsU64(v.items[0]) == None || AsU64(v.items[1]) == None then Err(Malformed("ordinal"))
    else
      var payload :- Untag24(v.items[|v.items| - 1]);
      var event := Event(None, AsU64(v.items[0]), None, AsU64(v.items[1]), None, payload);
      if |v.items| == 3 then Ok(event)
      else if AsU64(v.items[2]) == None then Err(Malformed("ordinal"))
      else Ok(event.(id := AsU64(v.items[2])))
  }

  predicate EventSendable(e: Event) {
    OptSendable(e.service) && OptSendable(e.event) && |e.payload| <= MAX_INT64
  }

  /** A verbose event needs a name; then it decodes back to itself, apart from ordinals, which
      that profile does not carry. */
  lemma VerboseRoundTrip(e: Event)
    requires EventSendable(e)
    ensures EncodeEvent(e, ProfileVerbose).Ok? <==> e.event.Some?
    ensures e.event.Some? ==>
      DecodeEvent(EncodeEvent(e, ProfileVerbose).value, ProfileVerbose) == Ok(e.(serviceOrd := None, opOrd := None))
  {
    hide Envelope, MapGet, EncodeFields, WellNamed, ValuesSendable, Sendable, Tag24;
    if e.event.Some? {
      var fields := VerboseFields(e);
      VerboseFieldsFit(e);
      FieldsReadBack(fields);
      UntagsItself(e.payload);
      var v := Envelope(EncodeFields(fields)).value;
      assert MapGet(v, fields[0].name) == NormalOpt(fields[0].val);
      assert MapGet(v, fields[1].name) == NormalOpt(fields[1].val);
      assert MapGet(v, fields[2].name) == NormalOpt(fields[2].val);
      assert MapGet(v, fields[3].name) == NormalOpt(fields[3].val);
    }
  }

  lemma VerboseFieldsFit(e: Event)
    requires EventSendable(e) && e.event.Some?
    ensures WellNamed(VerboseFields(e)) && ValuesSendable(VerboseFields(e))
    ensures Normal(Tag24(e.payload)) == Tag24(e.payload)
  {
    hide InMemory, Acceptable, Sendable, Tag24;
    PayloadSendable(e.payload);
    NumbersSendable();
    TextSendable(e.event.value);
    if e.service.Some? { TextSendable(e.service.value); }
  }

  /** A compact event needs both ordinals; then it decodes back to itself, apart from names. */
  lemma CompactRoundTrip(e: Event)
    requires EventSendable(e)
    ensures EncodeEvent(e, ProfileCompact).Ok? <==> e.serviceOrd.Some? && e.opOrd.Some?
    ensures e.serviceOrd.Some? && e.opOrd.Some? ==>
      DecodeEvent(EncodeEvent(e, ProfileCompact).value, ProfileCompact) == Ok(e.(service := None, event := None))
  {
    hide Encode, Envelope, InMemory, Acceptable, Normal, Tag24, Untag24;
    if e.serviceOrd.Some? && e.opOrd.Some? {
      var items := CompactItems(e);
      PayloadSendable(e.payload);
      NumbersSendable();
      UnsignedNormal();
      ItemsReadBack(items);
      NormalItemwise(items);
      UntagsItself(e.payload);
      assert Envelope(Encode(CArray(items))).value.items == items;
    }
  }

  lemma {:induction false} NormalItemwise(vs: seq<Value>)
    ensures forall i :: 0 <= i < |vs| ==> NormalAll(vs)[i] == Normal(vs[i])
    decreases |vs|
  {
    hide Normal;
    if vs != [] {
      NormalItemwise(vs[1..]);
    }
  }

  lemma UnsignedNormal()
    ensures forall n :: Normal(CUint(n)) == CUint(n)
  {
  }

  // ---- control payloads --------------------------------------------------------------------------------

  datatype Hello = Hello(versions: seq<u64>, profiles: seq<text>, service: Option<text>, auth: Option<text>)

  datatype HelloAck = HelloAck(v: u64, profile: text, session: Option<text>)

  datatype Heartbeat = Heartbeat(nonce: u64, at: Option<u64>)

  datatype Close = Close(status: Status, reason: Option<text>)

  function HelloFields(h: Hello): seq<Field> {
    [Field("versions", Some(CArray(Uints(h.versions)))), Field("profiles", Some(CArray(Texts(h.profiles)))),
     Field("service", OptText(h.service)), Field("auth", OptText(h.auth))]
  }

  function EncodeHello(h: Hello): seq<byte> {
    EncodeFields(HelloFields(h))
  }

  function Uints(ns: seq<u64>): seq<Value> {
    if ns == [] then [] else [CUint(ns[0])] + Uints(ns[1..])
  }

  function Texts(ts: seq<text>): seq<Value> {
    if ts == [] then [] else [CText(ts[0])] + Texts(ts[1..])
  }

  /** The integers of a list; anything else in it is skipped. */
  function OnlyUints(vs: seq<Value>): seq<u64> {
    if vs == [] then []
    else (if AsU64(vs[0]).Some? then [AsU64(vs[0]).value] else []) + OnlyUints(vs[1..])
  }

  function OnlyTexts(vs: seq<Value>): seq<text> {
    if vs == [] then [] else (if vs[0].CText? then [vs[0].s] else []) + OnlyTexts(vs[1..])
  }

  lemma {:induction false} OnlyUintsConcat(a: seq<Value>, b: seq<Value>)
    ensures OnlyUints(a + b) == OnlyUints(a) + OnlyUints(b)
    decreases |a|
  {
    hide AsU64;
    if a == [] {
      assert a + b == b;
    } else {
      OnlyUintsConcat(a[1..], b);
      assert (a + b)[0] == a[0] && (a + b)[1..] == a[1..] + b;
      var head := if AsU64(a[0]).Some? then [AsU64(a[0]).value] else [];
      assert head + (OnlyUints(a[1..]) + OnlyUints(b)) == (head + OnlyUints(a[1..])) + OnlyUints(b);
    }
  }

  lemma {:induction false} OnlyTextsConcat(a: seq<Value>, b: seq<Value>)
    ensures OnlyTexts(a + b) == OnlyTexts(a) + OnlyTexts(b)
    decreases |a|
  {
    if a == [] {
      assert a + b == b;
    } else {
      OnlyTextsConcat(a[1..], b);
      assert (a + b)[0] == a[0] && (a + b)[1..] == a[1..] + b;
      var head := if a[0].CText? then [a[0].s] else [];
      assert head + (OnlyTexts(a[1..]) + OnlyTexts(b)) == (head + OnlyTexts(a[1..])) + OnlyTexts(b);
    }
  }

  /** Whatever else a list holds, the rest of it counts. */
  lemma {:induction false} ForeignItemsSkipped(a: seq<Value>, v: Value, b: seq<Value>)
    ensures OnlyUints(a + [v] + b)
         == OnlyUints(a) + (if AsU64(v).Some? then [AsU64(v).value] else []) + OnlyUints(b)
    ensures OnlyTexts(a + [v] + b) == OnlyTexts(a) + (if v.CText? then [v.s] else []) + OnlyTexts(b)
  {
    hide AsU64;
    OnlyUintsConcat(a + [v], b);
    OnlyUintsConcat(a, [v]);
    OnlyTextsConcat(a + [v], b);
    OnlyTextsConcat(a, [v]);
    assert [v][1..] == [];
  }

  function GetArray(v: Value, key: string): Result<seq<Value>, EnvelopeError> {
    match MapGet(v, key)
    case Some(CArray(items)) => Ok(items)
    case _ => Err(Malformed(key))
  }

  function DecodeHello(b: seq<byte>): Result<Hello, EnvelopeError> {
    var v :- Envelope(b);
    var versions :- GetArray(v, "versions");
    var profiles :- GetArray(v, "profiles");
    Ok(Hello(OnlyUints(versions), OnlyTexts(profiles), GetTextOpt(v, "service"), GetTextOpt(v, "auth")))
  }

  function HelloAckFields(a: HelloAck): seq<Field> {
    [Field("v", Some(CUint(a.v))), Field("profile", Some(CText(a.profile))), Field("session", OptText(a.session))]
  }

  function EncodeHelloAck(a: HelloAck): seq<byte> {
    EncodeFields(HelloAckFields(a))
  }

  function DecodeHelloAck(b: seq<byte>): Result<HelloAck, EnvelopeError> {
    var v :- Envelope(b);
    var version :- GetUint(v, "v");
    var profile :- GetText(v, "profile");
    Ok(HelloAck(version, profile, GetTextOpt(v, "session")))
  }

  function HeartbeatFields(h: Heartbeat): seq<Field> {
    [Field("nonce", Some(CUint(h.nonce))), Field("at", OptUint(h.at))]
  }

  function EncodeHeartbeat(h: Heartbeat): seq<byte> {
    EncodeFields(HeartbeatFields(h))
  }

  function DecodeHeartbeat(b: seq<byte>): Result<Heartbeat, EnvelopeError> {
    var v :- Envelope(b);
    var nonce :- GetUint(v, "nonce");
    Ok(Heartbeat(nonce, GetUintOpt(v, "at")))
  }

  function CloseFields(c: Close): seq<Field> {
    [Field("status", Some(CInt(c.status.code))), Field("reason", OptText(c.reason))]
  }

  function EncodeClose(c: Close): seq<byte> {
    EncodeFields(CloseFields(c))
  }

  function DecodeClose(b: seq<byte>): Result<Close, EnvelopeError> {
    var v :- Envelope(b);
    var status :- GetInt(v, "status");
    Ok(Close(Status(status), GetTextOpt(v, "reason")))
  }

  predicate HelloSendable(h: Hello) {
    && |h.versions| <= MAX_INT64 && |h.profiles| <= MAX_INT64
    && (forall p | p in h.profiles :: Sendable(p))
    && OptSendable(h.service) && OptSendable(h.auth)
  }

  /** Every hello decodes back to itself, offers and order included. */
  lemma {:induction false} HelloRoundTrip(h: Hello)
    requires HelloSendable(h)
    ensures DecodeHello(EncodeHello(h)) == Ok(h)
  {
    hide Envelope, MapGet, EncodeFields, WellNamed, ValuesSendable, Sendable;
    var fields := HelloFields(h);
    HelloFieldsFit(h);
    FieldsReadBack(fields);
    var v := Envelope(EncodeFields(fields)).value;
    assert MapGet(v, fields[0].name) == NormalOpt(fields[0].val);
    assert MapGet(v, fields[1].name) == NormalOpt(fields[1].val);
    assert MapGet(v, fields[2].name) == NormalOpt(fields[2].val);
    assert MapGet(v, fields[3].name) == NormalOpt(fields[3].val);
    UintListReadsBack(h.versions);
    TextListReadsBack(h.profiles);
  }

  lemma HelloFieldsFit(h: Hello)
    requires HelloSendable(h)
    ensures WellNamed(HelloFields(h)) && ValuesSendable(HelloFields(h))
  {
    hide InMemory, Acceptable, Sendable;
    NumbersSendable();
    UintListSendable(h.versions);
    TextListSendable(h.profiles);
    if h.service.Some? { TextSendable(h.service.value); }
    if h.auth.Some? { TextSendable(h.auth.value); }
  }

  lemma {:induction false} UintListReadsBack(ns: seq<u64>)
    ensures OnlyUints(NormalAll(Uints(ns))) == ns
    decreases |ns|
  {
    if ns != [] {
      UintListReadsBack(ns[1..]);
      assert Uints(ns)[1..] == Uints(ns[1..]);
      assert NormalAll(Uints(ns))[1..] == NormalAll(Uints(ns[1..]));
    }
  }

  lemma {:induction false} TextListReadsBack(ts: seq<text>)
    ensures OnlyTexts(NormalAll(Texts(ts))) == ts
    decreases |ts|
  {
    if ts != [] {
      TextListReadsBack(ts[1..]);
      assert Texts(ts)[1..] == Texts(ts[1..]);
      assert NormalAll(Texts(ts))[1..] == NormalAll(Texts(ts[1..]));
    }
  }

  lemma {:induction false} UintMembers(ns: seq<u64>)
    ensures |Uints(ns)| == |ns| && forall v | v in Uints(ns) :: v.CUint?
    decreases |ns|
  {
    if ns != [] {
      UintMembers(ns[1..]);
    }
  }

  lemma {:induction false} UintListSendable(ns: seq<u64>)
    requires |ns| <= MAX_INT64
    ensures InMemory(CArray(Uints(ns))) && Acceptable(CArray(Uints(ns)), MAX_DEPTH - 1)
  {
    UintMembers(ns);
  }

  lemma {:induction false} TextMembers(ts: seq<text>)
    requires forall t | t in ts :: Sendable(t)
    ensures |Texts(ts)| == |ts| && forall v | v in Texts(ts) :: v.CText? && Sendable(v.s)
    decreases |ts|
  {
    hide Sendable;
    if ts != [] {
      TextMembers(ts[1..]);
    }
  }

  lemma {:induction false} TextListSendable(ts: seq<text>)
    requires |ts| <= MAX_INT64 && forall t | t in ts :: Sendable(t)
    ensures InMemory(CArray(Texts(ts))) && Acceptable(CArray(Texts(ts)), MAX_DEPTH - 1)
  {
    TextMembers(ts);
  }

  /** Every hello-ack decodes back to itself. */
  lemma HelloAckRoundTrip(a: HelloAck)
    requires Sendable(a.profile) && OptSendable(a.session)
    ensures DecodeHelloAck(EncodeHelloAck(a)) == Ok(a)
  {
    hide Envelope, MapGet, EncodeFields, WellNamed, ValuesSendable, Sendable;
    var fields := HelloAckFields(a);
    HelloAckFieldsFit(a);
    FieldsReadBack(fields);
    var v := Envelope(EncodeFields(fields)).value;
    assert MapGet(v, fields[0].name) == NormalOpt(fields[0].val);
    assert MapGet(v, fields[1].name) == NormalOpt(fields[1].val);
    assert MapGet(v, fields[2].name) == NormalOpt(fields[2].val);
  }

  lemma HelloAckFieldsFit(a: HelloAck)
    requires Sendable(a.profile) && OptSendable(a.session)
    ensures WellNamed(HelloAckFields(a)) && ValuesSendable(HelloAckFields(a))
  {
    hide InMemory, Acceptable, Sendable;
    NumbersSendable();
    TextSendable(a.profile);
    if a.session.Some? { TextSendable(a.session.value); }
  }

  /** Every heartbeat decodes back to itself. */
  lemma HeartbeatRoundTrip(h: Heartbeat)
    ensures DecodeHeartbeat(EncodeHeartbeat(h)) == Ok(h)
  {
    hide Envelope, MapGet, EncodeFields, WellNamed, ValuesSendable, Sendable;
    var fields := HeartbeatFields(h);
    HeartbeatFieldsFit(h);
    FieldsReadBack(fields);
    var v := Envelope(EncodeFields(fields)).value;
    assert MapGet(v, fields[0].name) == NormalOpt(fields[0].val);
    assert MapGet(v, fields[1].name) == NormalOpt(fields[1].val);
  }

  lemma HeartbeatFieldsFit(h: Heartbeat)
    ensures WellNamed(HeartbeatFields(h)) && ValuesSendable(HeartbeatFields(h))
  {
    hide InMemory, Acceptable, Sendable;
    NumbersSendable();
  }

  /** Every close decodes back to itself, for every 64-bit status code. */
  lemma CloseRoundTrip(c: Close)
    requires OptSendable(c.reason)
    ensures DecodeClose(EncodeClose(c)) == Ok(c)
  {
    hide Envelope, MapGet, EncodeFields, WellNamed, ValuesSendable, Sendable;
    var fields := CloseFields(c);
    CloseFieldsFit(c);
    FieldsReadBack(fields);
    var v := Envelope(EncodeFields(fields)).value;
    assert MapGet(v, fields[0].name) == NormalOpt(fields[0].val);
    assert MapGet(v, fields[1].name) == NormalOpt(fields[1].val);
  }

  lemma CloseFieldsFit(c: Close)
    requires OptSendable(c.reason)
    ensures WellNamed(CloseFields(c)) && ValuesSendable(CloseFields(c))
  {
    hide InMemory, Acceptable, Sendable;
    NumbersSendable();
    if c.reason.Some? { TextSendable(c.reason.value); }
  }

  // ---- negotiation -----------------------------------------------------------------------------------

  /** Whether offer `i` names a profile the receiver supports. */
  predicate Usable(h: Hello, supported: seq<Profile>, i: nat)
    requires i < |h.profiles|
  {
    ParseProfile(h.profiles[i]).Some? && ParseProfile(h.profiles[i]).value in supported
  }

  /** The first usable offer of a peer that speaks this version; nothing otherwise. */
  method Negotiate(h: Hello, supported: seq<Profile>) returns (version: u64, profile: Profile, ok: bool)
    ensures ok <==> VERSION in h.versions && exists i :: 0 <= i < |h.profiles| && Usable(h, supported, i)
    ensures ok ==> version == VERSION
    ensures ok ==> exists i :: 0 <= i < |h.profiles| && Usable(h, supported, i)
                               && profile == ParseProfile(h.profiles[i]).value
                               && forall j :: 0 <= j < i ==> !Usable(h, supported, j)
  {
    hide ParseProfile;
    version, profile, ok := 0, ProfileVerbose, false;
    var hasVersion := false;
    for i := 0 to |h.versions|
      invariant hasVersion <==> VERSION in h.versions[..i]
    {
      if h.versions[i] == VERSION {
        hasVersion := true;
        assert h.versions[i] in h.versions;
        break;
      }
    }
    assert hasVersion <==> VERSION in h.versions;
    if !hasVersion {
      return;
    }
    for i := 0 to |h.profiles|
      invariant forall j :: 0 <= j < i ==> !Usable(h, supported, j)
    {
      var p := ParseProfile(h.profiles[i]);
      if p.Some? {
        for k := 0 to |supported|
          invariant p.value !in supported[..k]
        {
          if supported[k] == p.value {
            assert supported[k] in supported && Usable(h, supported, i);
            return VERSION, p.value, true;
          }
        }
      }
    }
  }

  /** Encoding a hello as the source does, list by list. */
  method EncodeHelloBytes(h: Hello) returns (b: seq<byte>)
    ensures b == EncodeHello(h)
  {
    hide EncodeFields;
    var versions: seq<Value> := [];
    for i := 0 to |h.versions|
      invariant versions + Uints(h.versions[i..]) == Uints(h.versions)
    {
      versions := versions + [CUint(h.versions[i])];
      assert h.versions[i..][1..] == h.versions[i + 1..];
    }
    assert h.versions[|h.versions|..] == [] && versions + [] == versions;
    var profiles: seq<Value> := [];
    for i := 0 to |h.profiles|
      invariant profiles + Texts(h.profiles[i..]) == Texts(h.profiles)
    {
      profiles := profiles + [CText(h.profiles[i])];
      assert h.profiles[i..][1..] == h.profiles[i + 1..];
    }
    assert h.profiles[|h.profiles|..] == [] && profiles + [] == profiles;
    b := EncodeFields([Field("versions", Some(CArray(versions))), Field("profiles", Some(CArray(profiles))),
                       Field("service", OptText(h.service)), Field("auth", OptText(h.auth))]);
  }

  method DecodeHelloBytes(b: seq<byte>) returns (r: Result<Hello, EnvelopeError>)
    ensures r == DecodeHello(b)
  {
    hide Envelope, MapGet;
    var v := Envelope(b);
    if v.Err? { return Err(v.error); }
    var versArr := GetArray(v.value, "versions");
    if versArr.Err? { return Err(versArr.error); }
    var versions: seq<u64> := [];
    for i := 0 to |versArr.value|
      invariant versions + OnlyUints(versArr.value[i..]) == OnlyUints(versArr.value)
    {
      if AsU64(versArr.value[i]).Some? {
        versions := versions + [AsU64(versArr.value[i]).value];
      }
      assert versArr.value[i..][1..] == versArr.value[i + 1..];
    }
    assert versArr.value[|versArr.value|..] == [] && versions + [] == versions;
    var profArr := GetArray(v.value, "profiles");
    if profArr.Err? { return Err(profArr.error); }
    var profiles: seq<text> := [];
    for i := 0 to |profArr.value|
      invariant profiles + OnlyTexts(profArr.value[i..]) == OnlyTexts(profArr.value)
    {
      if profArr.value[i].CText? {
        profiles := profiles + [profArr.value[i].s];
      }
      assert profArr.value[i..][1..] == profArr.value[i + 1..];
    }
    assert profArr.value[|profArr.value|..] == [] && profiles + [] == profiles;
    return Ok(Hello(versions, profiles, GetTextOpt(v.value, "service"), GetTextOpt(v.value, "auth")));
  }
}
