/** Field access, tag 24 and versions: transports/go/conventions.go. */
module Conventions {
  import opened Bytes
  import opened GoCbor
  import opened GoRoundTrip
  import opened CanonMap
  import Utf8

  type text = seq<byte>    // a Go string

  const VERSION: u64 := 1
  const TAG_ENCODED_CBOR: u64 := 24
  const MAX_FRAME_DEFAULT := 16 * 1024 * 1024
  const MAX_FRAME_LIMIT := 2147483647

  datatype EnvelopeError =
    | Cbor(cause: DecodeError)
    | Malformed(what: string)
    | UnsupportedVersion(version: u64)

  function ValidateMaxFrame(maxFrame: int): bool {
    1 <= maxFrame <= MAX_FRAME_LIMIT
  }

  /** A transport status is its code. */
  datatype Status = Status(code: i64) {
    predicate IsOk() {
      code == 0
    }

    function Name(): string {
      match code
      case 0 => "ok"
      case 1 => "malformed-envelope"
      case 2 => "unknown-service-or-op"
      case 3 => "unauthenticated"
      case 4 => "forbidden"
      case 5 => "version-unsupported"
      case 6 => "internal"
      case 7 => "unavailable"
      case 8 => "deadline-exceeded"
      case _ => "other"
    }
  }

  function Tag24(payload: seq<byte>): Value {
    CTag(TAG_ENCODED_CBOR, CBytes(payload))
  }

  function Untag24(v: Value): Result<seq<byte>, EnvelopeError> {
    if !v.CTag? || v.num != TAG_ENCODED_CBOR then Err(Malformed("expected a tag-24 payload"))
    else if !v.content.CBytes? then Err(Malformed("tag-24 payload is not a byte string"))
    else Ok(v.content.b)
  }

  function MapGet(v: Value, key: string): Option<Value> {
    if v.CMap? then Lookup(v.entries, Ascii(key)) else None
  }

  function AsU64(v: Value): Option<u64> {
    match v
    case CUint(n) => Some(n)
    case CInt(i) => if i >= 0 then Some(i) else None
    case _ => None
  }

  /** `int64(x)` of an unsigned value wraps around. */
  function AsI64(v: Value): Option<i64> {
    match v
    case CUint(n) => Some(if n <= MAX_INT64 then n else n - 0x1_0000_0000_0000_0000)
    case CInt(i) => Some(i)
    case _ => None
  }

  function GetUint(m: Value, key: string): Result<u64, EnvelopeError> {
    match MapGet(m, key)
    case None => Err(Malformed(key))
    case Some(v) => if AsU64(v).Some? then Ok(AsU64(v).value) else Err(Malformed(key))
  }

  function GetInt(m: Value, key: string): Result<i64, EnvelopeError> {
    match MapGet(m, key)
    case None => Err(Malformed(key))
    case Some(v) => if AsI64(v).Some? then Ok(AsI64(v).value) else Err(Malformed(key))
  }

  function GetText(m: Value, key: string): Result<text, EnvelopeError> {
    match MapGet(m, key)
    case Some(CText(s)) => Ok(s)
    case _ => Err(Malformed(key))
  }

  function GetTextOpt(m: Value, key: string): Option<text> {
    match MapGet(m, key)
    case Some(CText(s)) => Some(s)
    case _ => None
  }

  function GetUintOpt(m: Value, key: string): Option<u64> {
    match MapGet(m, key)
    case Some(v) => AsU64(v)
    case None => None
  }

  function CheckVersion(v: u64): Result<(), EnvelopeError> {
    if v == VERSION then Ok(()) else Err(UnsupportedVersion(v))
  }

  function Envelope(b: seq<byte>): Result<Value, EnvelopeError> {
    match DecodeEnvelope(b)
    case Ok(v) => Ok(v)
    case Err(e) => Err(Cbor(e))
  }

  // ---- text-keyed envelopes -------------------------------------------------------------------------

  /** A named field; `None` is an optional field that is left out. */
  datatype Field = Field(name: string, val: Option<Value>)

  function Entries(fields: seq<Field>): seq<Entry> {
    if fields == [] then []
    else (if fields[0].val.Some? then [Entry(CText(Ascii(fields[0].name)), fields[0].val.value)] else [])
         + Entries(fields[1..])
  }

  /** The bytes of a text-keyed envelope. */
  function EncodeFields(fields: seq<Field>): seq<byte> {
    Encode(CMap(Canon(Entries(fields))))
  }

  /** Strings that fit in memory and are UTF-8, so the peer can read them. */
  predicate Sendable(s: text) {
    |s| <= MAX_INT64 && Utf8.Valid(s)
  }

  predicate OptSendable(s: Option<text>) {
    s.Some? ==> Sendable(s.value)
  }

  predicate WellNamed(fields: seq<Field>) {
    && |fields| <= MAX_INT64
    && (forall i :: 0 <= i < |fields| ==> IsAscii(fields[i].name) && |fields[i].name| <= MAX_INT64)
    && forall i, j :: 0 <= i < j < |fields| ==> fields[i].name != fields[j].name
  }

  predicate ValuesSendable(fields: seq<Field>) {
    forall f | f in fields && f.val.Some? :: InMemory(f.val.value) && Acceptable(f.val.value, MAX_DEPTH - 1)
  }

  function NormalOpt(v: Option<Value>): Option<Value> {
    match v
    case None => None
    case Some(x) => Some(Normal(x))
  }

  lemma {:induction false} LookupInEntries(fields: seq<Field>, i: nat)
    requires WellNamed(fields) && i < |fields|
    ensures Lookup(Entries(fields), Ascii(fields[i].name)) == fields[i].val
    decreases |fields|
  {
    AsciiInjective(fields[0].name, fields[i].name);
    LookupFirst(fields, Ascii(fields[i].name));
    if i > 0 {
      LookupInEntries(fields[1..], i - 1);
    } else {
      NotLookedUp(fields[1..], fields[0].name);
    }
  }

  lemma LookupFirst(fields: seq<Field>, key: text)
    requires fields != []
    ensures Lookup(Entries(fields), key)
         == if Ascii(fields[0].name) == key && fields[0].val.Some? then fields[0].val
            else Lookup(Entries(fields[1..]), key)
  {
    var rest := Entries(fields[1..]);
    assert [] + rest == rest;
    if fields[0].val.Some? {
      assert Entries(fields)[1..] == rest;
    }
  }

  lemma {:induction false} NotLookedUp(fields: seq<Field>, name: string)
    requires IsAscii(name) && forall f | f in fields :: IsAscii(f.name) && f.name != name
    ensures Lookup(Entries(fields), Ascii(name)) == None
    decreases |fields|
  {
    if fields != [] {
      assert fields[0] in fields;
      AsciiInjective(fields[0].name, name);
      LookupFirst(fields, Ascii(name));
      NotLookedUp(fields[1..], name);
    }
  }

  lemma {:induction false} LookupInNormal(es: seq<Entry>, key: text)
    ensures Lookup(NormalEntries(es), key) == NormalOpt(Lookup(es, key))
    decreases |es|
  {
    if es != [] {
      assert NormalEntries(es)[0] == NormalEntry(es[0]) && NormalEntries(es)[1..] == NormalEntries(es[1..]);
      NormalText(es[0].key, key);
      LookupInNormal(es[1..], key);
    }
  }

  lemma NormalText(v: Value, key: text)
    ensures Normal(v) == CText(key) <==> v == CText(key)
  {
  }

  lemma {:induction false} EntriesSendable(fields: seq<Field>)
    requires WellNamed(fields) && ValuesSendable(fields)
    ensures |Entries(fields)| <= |fields|
    ensures forall e | e in Entries(fields) :: EntryInMemory(e) && EntryAcceptable(e, MAX_DEPTH - 1)
    decreases |fields|
  {
    hide InMemory, Acceptable;
    if fields != [] {
      EntriesSendable(fields[1..]);
      assert fields[0] in fields;
      FieldNameSendable(fields[0].name);
    }
  }

  lemma FieldNameSendable(name: string)
    requires IsAscii(name) && |name| <= MAX_INT64
    ensures InMemory(CText(Ascii(name))) && Acceptable(CText(Ascii(name)), MAX_DEPTH - 1)
  {
    Utf8.AsciiValid(Ascii(name));
  }

  /** A text-keyed envelope decodes, and every field reads back as it was written. */
  lemma {:induction false} FieldsReadBack(fields: seq<Field>)
    requires WellNamed(fields) && ValuesSendable(fields)
    ensures Envelope(EncodeFields(fields)).Ok?
    ensures forall i :: 0 <= i < |fields| ==>
              MapGet(Envelope(EncodeFields(fields)).value, fields[i].name) == NormalOpt(fields[i].val)
  {
    hide Encode, Decode, Canon, WellNamed, ValuesSendable, EntryInMemory, EntryAcceptable, Ascii, IsAscii;
    var es := Entries(fields);
    EntriesSendable(fields);
    CanonStablySorts(es);
    NamesShort(fields);
    var m := CMap(Canon(es));
    RoundTrip(m, []);
    assert Encode(m) + [] == Encode(m);
    forall i | 0 <= i < |fields|
      ensures MapGet(Envelope(EncodeFields(fields)).value, fields[i].name) == NormalOpt(fields[i].val)
    {
      LookupInNormal(Canon(es), Ascii(fields[i].name));
      SortingKeepsLookups(es, Ascii(fields[i].name));
      LookupInEntries(fields, i);
    }
  }

  lemma NamesShort(fields: seq<Field>)
    requires WellNamed(fields)
    ensures |fields| <= MAX_INT64 && forall i :: 0 <= i < |fields| ==> |Ascii(fields[i].name)| <= MAX_INT64
  {
  }

  /** An envelope that is a CBOR array reads back item by item. */
  lemma ArrayAcceptable(items: seq<Value>)
    requires |items| <= MAX_INT64
    requires forall v | v in items :: InMemory(v) && Acceptable(v, MAX_DEPTH - 1)
    ensures InMemory(CArray(items)) && Acceptable(CArray(items), MAX_DEPTH)
  {
  }

  lemma NormalArray(items: seq<Value>)
    ensures Normal(CArray(items)) == CArray(NormalAll(items))
  {
  }

  lemma {:induction false} ItemsReadBack(items: seq<Value>)
    requires |items| <= MAX_INT64
    requires forall v | v in items :: InMemory(v) && Acceptable(v, MAX_DEPTH - 1)
    ensures Envelope(Encode(CArray(items))) == Ok(CArray(NormalAll(items)))
  {
    hide Encode, Decode, Normal, NormalAll;
    ArrayAcceptable(items);
    RoundTrip(CArray(items), []);
    assert Encode(CArray(items)) + [] == Encode(CArray(items));
    NormalArray(items);
  }

  // ---- field values that are always sendable ----------------------------------------------------------

  lemma PayloadSendable(payload: seq<byte>)
    requires |payload| <= MAX_INT64
    ensures InMemory(Tag24(payload)) && Acceptable(Tag24(payload), MAX_DEPTH - 1)
    ensures Normal(Tag24(payload)) == Tag24(payload)
  {
  }

  lemma UntagsItself(payload: seq<byte>)
    ensures Untag24(Tag24(payload)) == Ok(payload)
  {
  }

  /** A number always survives; a non-negative `cInt` comes back as a `cUint`. */
  lemma NumbersSendable()
    ensures forall n :: InMemory(CUint(n)) && Acceptable(CUint(n), MAX_DEPTH - 1)
    ensures forall i :: InMemory(CInt(i)) && Acceptable(CInt(i), MAX_DEPTH - 1)
  {
  }

  lemma TextSendable(s: text)
    requires Sendable(s)
    ensures InMemory(CText(s)) && Acceptable(CText(s), MAX_DEPTH - 1)
  {
  }

  function OptUint(n: Option<u64>): Option<Value> {
    match n
    case None => None
    case Some(x) => Some(CUint(x))
  }

  function OptText(s: Option<text>): Option<Value> {
    match s
    case None => None
    case Some(x) => Some(CText(x))
  }
}
