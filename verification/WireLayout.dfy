/** The bytes of every envelope, field by field: which names, in which order, with which heads. These are
    the layouts that the vectors under transports/conformance fix for all transports. */
module WireLayout {
  import opened Bytes
  import opened GoCbor
  import opened CanonMap
  import opened Conventions
  import opened Rpc
  import opened Events
  import opened Datagrams

  // ---- maps with short text keys -----------------------------------------------------------------------

  /** Names short enough for a head of one byte. */
  predicate ShortName(name: string) {
    |name| < 24 && IsAscii(name)
  }

  function NameBytes(name: string): seq<byte>
    requires ShortName(name)
  {
    [0x60 + |name|] + Ascii(name)
  }

  /** The order of map keys: shorter names first, then by their letters. */
  predicate Earlier(a: string, b: string) {
    |a| < |b| || (|a| == |b| && Less(Ascii(a), Ascii(b)))
  }

  predicate ShortNames(fields: seq<Field>) {
    forall f | f in fields :: ShortName(f.name)
  }

  predicate InOrder(fields: seq<Field>) {
    forall i, j :: 0 <= i < j < |fields| ==> Earlier(fields[i].name, fields[j].name)
  }

  function Present(fields: seq<Field>): nat {
    if fields == [] then 0 else (if fields[0].val.Some? then 1 else 0) + Present(fields[1..])
  }

  function FieldBytes(f: Field): seq<byte>
    requires ShortName(f.name)
  {
    if f.val.Some? then NameBytes(f.name) + Encode(f.val.value) else []
  }

  function FieldsBytes(fields: seq<Field>): seq<byte>
    requires ShortNames(fields)
  {
    if fields == [] then [] else FieldBytes(fields[0]) + FieldsBytes(fields[1..])
  }

  lemma NameIsKey(name: string)
    requires ShortName(name)
    ensures Encode(CText(Ascii(name))) == NameBytes(name)
  {
  }

  lemma EarlierIsLess(a: string, b: string)
    requires ShortName(a) && ShortName(b) && Earlier(a, b)
    ensures Less(NameBytes(a), NameBytes(b)) && a != b
  {
    assert NameBytes(a)[1..] == Ascii(a) && NameBytes(b)[1..] == Ascii(b);
    LessTrichotomy(Ascii(a), Ascii(b));
  }

  lemma NameOfKey(a: string, b: string)
    requires ShortName(a) && ShortName(b) && NameBytes(a) == NameBytes(b)
    ensures a == b
  {
    assert NameBytes(a)[1..] == Ascii(a) && NameBytes(b)[1..] == Ascii(b);
    AsciiInjective(a, b);
  }

  function EntryOf(f: Field): seq<Entry> {
    if f.val.Some? then [Entry(CText(Ascii(f.name)), f.val.value)] else []
  }

  /** Under a name's key stands its own field, and under no other key any. */
  lemma {:induction false} WithNameKey(fields: seq<Field>, k: seq<byte>)
    requires ShortNames(fields) && forall i, j :: 0 <= i < j < |fields| ==> fields[i].name != fields[j].name
    ensures forall f | f in fields && NameBytes(f.name) == k :: WithKey(Entries(fields), k) == EntryOf(f)
    ensures (forall f | f in fields :: NameBytes(f.name) != k) ==> WithKey(Entries(fields), k) == []
    decreases |fields|
  {
    hide Encode, NameBytes, ShortName;
    if fields != [] {
      var first := fields[0];
      assert first in fields;
      assert fields == [first] + fields[1..];
      WithNameKey(fields[1..], k);
      NameIsKey(first.name);
      assert Entries(fields) == EntryOf(first) + Entries(fields[1..]);
      WithKeyConcat(EntryOf(first), Entries(fields[1..]), k);
      OwnKey(first, k);
      if NameBytes(first.name) == k {
        forall f | f in fields[1..] ensures NameBytes(f.name) != k {
          if NameBytes(f.name) == k {
            NameOfKey(first.name, f.name);
          }
        }
        assert EntryOf(first) + [] == EntryOf(first);
      }
    }
  }

  lemma OwnKey(f: Field, k: seq<byte>)
    requires ShortName(f.name)
    ensures WithKey(EntryOf(f), k) == if NameBytes(f.name) == k then EntryOf(f) else []
  {
    hide Encode, NameBytes;
    NameIsKey(f.name);
    if f.val.Some? {
      assert EntryOf(f)[1..] == [];
    }
  }

  /** Every entry comes from a field. */
  lemma {:induction false} EntryHasField(fields: seq<Field>, e: Entry)
    requires ShortNames(fields) && e in Entries(fields)
    ensures exists f | f in fields :: ShortName(f.name) && KeyBytes(e) == NameBytes(f.name)
    decreases |fields|
  {
    hide Encode, NameBytes, ShortName;
    var first, rest := fields[0], Entries(fields[1..]);
    assert first in fields;
    assert Entries(fields) == EntryOf(first) + rest;
    if e in rest {
      EntryHasField(fields[1..], e);
    } else {
      NameIsKey(first.name);
    }
  }

  lemma {:induction false} EntriesInOrder(fields: seq<Field>)
    requires ShortNames(fields) && InOrder(fields)
    ensures Sorted(Entries(fields))
    decreases |fields|
  {
    hide Encode, NameBytes, Earlier, Less, ShortName;
    if fields != [] {
      var first, rest := fields[0], Entries(fields[1..]);
      assert first in fields;
      EntriesInOrder(fields[1..]);
      assert Entries(fields) == EntryOf(first) + rest;
      if first.val.Some? {
        NameIsKey(first.name);
        forall j | 0 <= j < |rest| ensures !Less(KeyBytes(rest[j]), NameBytes(first.name)) {
          EntryHasField(fields[1..], rest[j]);
          var f :| f in fields[1..] && ShortName(f.name) && KeyBytes(rest[j]) == NameBytes(f.name);
          var i :| 0 <= i < |fields[1..]| && fields[1..][i] == f;
          assert f == fields[i + 1] && Earlier(first.name, f.name);
          EarlierIsLess(first.name, f.name);
          LessTrichotomy(NameBytes(first.name), KeyBytes(rest[j]));
        }
        SortedBehind(EntryOf(first)[0], rest);
      } else {
        assert EntryOf(first) + rest == rest;
      }
    }
  }

  lemma SortedBehind(e: Entry, rest: seq<Entry>)
    requires Sorted(rest) && forall j :: 0 <= j < |rest| ==> !Less(KeyBytes(rest[j]), KeyBytes(e))
    ensures Sorted([e] + rest)
  {
    hide KeyBytes, Less;
  }

  lemma {:induction false} EntriesBytes(fields: seq<Field>)
    requires ShortNames(fields)
    ensures |Entries(fields)| == Present(fields) && EncodeEntries(Entries(fields)) == FieldsBytes(fields)
    decreases |fields|
  {
    hide Encode, NameBytes, ShortName;
    if fields != [] {
      var first, rest := fields[0], Entries(fields[1..]);
      assert first in fields;
      EntriesBytes(fields[1..]);
      NameIsKey(first.name);
      assert Entries(fields) == EntryOf(first) + rest;
      if first.val.Some? {
        assert (EntryOf(first) + rest)[1..] == rest;
      } else {
        assert EntryOf(first) + rest == rest;
      }
    }
  }

  lemma OrderedNamesDiffer(fields: seq<Field>)
    requires ShortNames(fields) && InOrder(fields)
    ensures forall i, j :: 0 <= i < j < |fields| ==> fields[i].name != fields[j].name
  {
    hide ShortName, Earlier;
    forall i, j | 0 <= i < j < |fields| ensures fields[i].name != fields[j].name {
      assert fields[i] in fields && fields[j] in fields && Earlier(fields[i].name, fields[j].name);
      EarlierIsLess(fields[i].name, fields[j].name);
    }
  }

  /** A map envelope is a head with the number of fields there are, and these in the order of their names,
      whichever order they were listed in. */
  lemma {:induction false} FieldsOnTheWire(fields: seq<Field>, sorted: seq<Field>)
    requires WellNamed(fields) && ShortNames(fields) && InOrder(sorted)
    requires forall f :: f in fields <==> f in sorted
    ensures ShortNames(sorted)
    ensures EncodeFields(fields) == ShortestHead(5, Present(sorted)) + FieldsBytes(sorted)
  {
    hide Encode, NameBytes, ShortName, InOrder, Sorted, Canon, Entries, EncodeEntries, FieldsBytes, WellNamed;
    NamesDiffer(fields);
    OrderedNamesDiffer(sorted);
    EntriesInOrder(sorted);
    EntriesBytes(sorted);
    CanonStablySorts(Entries(fields));
    forall k ensures WithKey(Entries(fields), k) == WithKey(Entries(sorted), k) {
      WithNameKey(fields, k);
      WithNameKey(sorted, k);
      if f :| f in fields && ShortName(f.name) && NameBytes(f.name) == k {
        assert f in sorted;
      } else {
        assert forall f | f in sorted :: f in fields && NameBytes(f.name) != k;
      }
    }
    StableSortUnique(Canon(Entries(fields)), Entries(sorted));
    MapBytes(Entries(sorted));
  }

  lemma NamesDiffer(fields: seq<Field>)
    requires WellNamed(fields)
    ensures forall i, j :: 0 <= i < j < |fields| ==> fields[i].name != fields[j].name
  {
  }

  lemma MapBytes(es: seq<Entry>)
    ensures Encode(CMap(es)) == ShortestHead(5, |es|) + EncodeEntries(es)
  {
  }

  // ---- items ---------------------------------------------------------------------------------------------

  function Uint(n: u64): seq<byte> {
    ShortestHead(0, n)
  }

  /** Negative numbers are sent as what is missing to -1. */
  function Int(i: i64): seq<byte> {
    if i >= 0 then ShortestHead(0, i) else ShortestHead(1, -1 - i)
  }

  function Str(s: text): seq<byte> {
    ShortestHead(3, |s|) + s
  }

  /** A payload is a byte string under tag 24. */
  function Payload(p: seq<byte>): seq<byte> {
    [0xD8, 0x18] + (ShortestHead(2, |p|) + p)
  }

  /** A name and what stands behind it, if the field is there. */
  datatype Slot = Slot(name: string, item: Option<seq<byte>>)

  function UintSlot(name: string, n: Option<u64>): Slot {
    Slot(name, if n.Some? then Some(Uint(n.value)) else None)
  }

  function StrSlot(name: string, s: Option<text>): Slot {
    Slot(name, if s.Some? then Some(Str(s.value)) else None)
  }

  function Filled(slots: seq<Slot>): (n: nat)
    ensures n <= |slots|
  {
    if slots == [] then 0 else (if slots[0].item.Some? then 1 else 0) + Filled(slots[1..])
  }

  function SlotsBytes(slots: seq<Slot>): seq<byte>
    requires forall s | s in slots :: ShortName(s.name)
  {
    if slots == [] then []
    else
      (if slots[0].item.Some? then NameBytes(slots[0].name) + slots[0].item.value else []) + SlotsBytes(slots[1..])
  }

  /** The bytes of a map with these fields, fewer than 24. */
  function MapLayout(slots: seq<Slot>): seq<byte>
    requires |slots| < 24 && forall s | s in slots :: ShortName(s.name)
  {
    [0xA0 + Filled(slots)] + SlotsBytes(slots)
  }

  lemma ItemBytes()
    ensures forall n {:trigger Uint(n)} :: Encode(CUint(n)) == Uint(n)
    ensures forall i {:trigger Int(i)} :: Encode(CInt(i)) == Int(i)
    ensures forall s {:trigger Str(s)} :: Encode(CText(s)) == Str(s)
    ensures forall p {:trigger Payload(p)} :: Encode(Tag24(p)) == Payload(p)
    ensures Uint(VERSION) == [1]
  {
    assert ShortestHead(6, TAG_ENCODED_CBOR) == [0xD8, 0x18];
  }

  ghost predicate Fills(slots: seq<Slot>, fields: seq<Field>) {
    && |slots| == |fields|
    && forall i :: 0 <= i < |slots| ==> Fits(slots[i], fields[i])
  }

  predicate Fits(s: Slot, f: Field) {
    s.name == f.name && (s.item.Some? <==> f.val.Some?) && (f.val.Some? ==> s.item.value == Encode(f.val.value))
  }

  lemma {:induction false} SlotsFilled(slots: seq<Slot>, fields: seq<Field>)
    requires Fills(slots, fields) && ShortNames(fields)
    ensures forall s | s in slots :: ShortName(s.name)
    ensures Filled(slots) == Present(fields) && SlotsBytes(slots) == FieldsBytes(fields)
    decreases |slots|
  {
    hide Encode, NameBytes, ShortName;
    if slots != [] {
      assert fields[0] in fields && Fits(slots[0], fields[0]);
      SlotsFilled(slots[1..], fields[1..]);
    }
  }

  /** The layout of an envelope, from its fields in order. */
  lemma {:induction false} MapOnTheWire(fields: seq<Field>, sorted: seq<Field>, slots: seq<Slot>)
    requires WellNamed(fields) && ShortNames(fields) && InOrder(sorted)
    requires (forall f :: f in fields <==> f in sorted) && Fills(slots, sorted) && |slots| < 24
    ensures forall s | s in slots :: ShortName(s.name)
    ensures EncodeFields(fields) == MapLayout(slots)
  {
    hide Encode, NameBytes, ShortName, InOrder, EncodeFields, Present, FieldsBytes, Filled, SlotsBytes, Fills,
      WellNamed;
    FieldsOnTheWire(fields, sorted);
    SlotsFilled(slots, sorted);
    ShortHeads(Filled(slots));
  }

  lemma ShortHeads(n: nat)
    requires n < 24
    ensures ShortestHead(5, n) == [0xA0 + n] && ShortestHead(4, n) == [0x80 + n]
  {
  }

  // ---- the envelopes -------------------------------------------------------------------------------------

  /** The names of all map envelopes, each kind in order. */
  lemma NamesShort()
    ensures forall n | n in ["v", "id", "op", "auth", "error", "event", "status", "payload", "service", "variant",
      "profile", "session", "versions", "profiles", "nonce", "at", "reason"] :: ShortName(n)
  {
  }

  lemma NamesInOrder()
    ensures Earlier("id", "op") && Earlier("payload", "service") && Earlier("payload", "variant")
    ensures Earlier("profile", "session") && Earlier("profiles", "versions") && Earlier("reason", "status")
  {
  }

  /** Neighbours in order are enough. */
  lemma {:induction false} OrderByNeighbours(fields: seq<Field>)
    requires ShortNames(fields) && forall i :: 0 <= i < |fields| - 1 ==> Earlier(fields[i].name, fields[i + 1].name)
    ensures InOrder(fields)
    decreases |fields|
  {
    hide ShortName, Earlier;
    if |fields| >= 2 {
      OrderByNeighbours(fields[1..]);
      forall j | 1 <= j < |fields| ensures Earlier(fields[0].name, fields[j].name) {
        if j > 1 {
          assert fields[1..][0] == fields[1] && fields[1..][j - 1] == fields[j];
          EarlierTransitive(fields[0].name, fields[1].name, fields[j].name);
        }
      }
      forall i, j | 0 <= i < j < |fields| ensures Earlier(fields[i].name, fields[j].name) {
        if i > 0 {
          assert fields[1..][i - 1] == fields[i] && fields[1..][j - 1] == fields[j];
        }
      }
    }
  }

  lemma EarlierTransitive(a: string, b: string, c: string)
    requires Earlier(a, b) && Earlier(b, c)
    ensures Earlier(a, c)
  {
    hide Less;
    if |a| == |b| == |c| {
      LessTransitive(Ascii(a), Ascii(b), Ascii(c));
    }
  }

  function RequestSlots(r: RpcRequest): seq<Slot>
  {
    [Slot("v", Some([1])), UintSlot("id", r.id), Slot("op", Some(Str(r.op))), StrSlot("auth", r.auth),
     Slot("payload", Some(Payload(r.payload))), Slot("service", Some(Str(r.service)))]
  }

  lemma RequestNamed(r: RpcRequest)
    ensures WellNamed(RequestFields(r))
  {
    hide Tag24;
  }

  lemma RequestLayout(r: RpcRequest)
    ensures forall s | s in RequestSlots(r) :: ShortName(s.name)
    ensures EncodeRequest(r) == MapLayout(RequestSlots(r))
  {
    hide Encode, Tag24, Uint, Str, Int, Payload, MapLayout, EncodeFields, ShortName, Less, WellNamed;
    ItemBytes();
    NamesShort();
    NamesInOrder();
    RequestNamed(r);
    var sorted := [Field("v", Some(CUint(VERSION))), Field("id", OptUint(r.id)), Field("op", Some(CText(r.op))),
                   Field("auth", OptText(r.auth)), Field("payload", Some(Tag24(r.payload))),
                   Field("service", Some(CText(r.service)))];
    OrderByNeighbours(sorted);
    MapOnTheWire(RequestFields(r), sorted, RequestSlots(r));
  }

  function ResponseSlots(r: RpcResponse): seq<Slot>
  {
    [Slot("v", Some([1])), UintSlot("id", r.id), StrSlot("error", r.error), Slot("status", Some(Int(r.status.code))),
     Slot("payload", Some(Payload(r.payload))), StrSlot("variant", r.variant)]
  }

  lemma ResponseNamed(r: RpcResponse)
    ensures WellNamed(ResponseFields(r))
  {
    hide Tag24;
  }

  lemma ResponseLayout(r: RpcResponse)
    ensures forall s | s in ResponseSlots(r) :: ShortName(s.name)
    ensures EncodeResponse(r) == MapLayout(ResponseSlots(r))
  {
    hide Encode, Tag24, Uint, Str, Int, Payload, MapLayout, EncodeFields, ShortName, Less, WellNamed;
    ItemBytes();
    NamesShort();
    NamesInOrder();
    ResponseNamed(r);
    var sorted := [Field("v", Some(CUint(VERSION))), Field("id", OptUint(r.id)), Field("error", OptText(r.error)),
                   Field("status", Some(CInt(r.status.code))), Field("payload", Some(Tag24(r.payload))),
                   Field("variant", OptText(r.variant))];
    OrderByNeighbours(sorted);
    MapOnTheWire(ResponseFields(r), sorted, ResponseSlots(r));
  }

  function PushSlots(p: RpcPush): seq<Slot>
  {
    [Slot("v", Some([1])), Slot("event", Some(Str(p.event))), Slot("payload", Some(Payload(p.payload))),
     Slot("service", Some(Str(p.service)))]
  }

  lemma PushNamed(p: RpcPush)
    ensures WellNamed(PushFields(p))
  {
    hide Tag24;
  }

  lemma PushLayout(p: RpcPush)
    ensures forall s | s in PushSlots(p) :: ShortName(s.name)
    ensures EncodePush(p) == MapLayout(PushSlots(p))
  {
    hide Encode, Tag24, Uint, Str, Int, Payload, MapLayout, EncodeFields, ShortName, Less, WellNamed;
    ItemBytes();
    NamesShort();
    NamesInOrder();
    PushNamed(p);
    var sorted := [Field("v", Some(CUint(VERSION))), Field("event", Some(CText(p.event))),
                   Field("payload", Some(Tag24(p.payload))), Field("service", Some(CText(p.service)))];
    OrderByNeighbours(sorted);
    MapOnTheWire(PushFields(p), sorted, PushSlots(p));
  }

  function VerboseSlots(e: Event): seq<Slot>
    requires e.event.Some?
  {
    [UintSlot("id", e.id), Slot("event", Some(Str(e.event.value))), Slot("payload", Some(Payload(e.payload))),
     StrSlot("service", e.service)]
  }

  lemma VerboseNamed(e: Event)
    requires e.event.Some?
    ensures WellNamed(VerboseFields(e))
  {
    hide Tag24;
  }

  lemma VerboseLayout(e: Event)
    requires e.event.Some?
    ensures forall s | s in VerboseSlots(e) :: ShortName(s.name)
    ensures EncodeEvent(e, ProfileVerbose) == Ok(MapLayout(VerboseSlots(e)))
  {
    hide Encode, Tag24, Uint, Str, Int, Payload, MapLayout, EncodeFields, ShortName, Less, WellNamed;
    ItemBytes();
    NamesShort();
    NamesInOrder();
    VerboseNamed(e);
    var sorted := [Field("id", OptUint(e.id)), Field("event", Some(CText(e.event.value))),
                   Field("payload", Some(Tag24(e.payload))), Field("service", OptText(e.service))];
    OrderByNeighbours(sorted);
    MapOnTheWire(VerboseFields(e), sorted, VerboseSlots(e));
  }

  function HelloAckSlots(a: HelloAck): seq<Slot>
  {
    [Slot("v", Some(Uint(a.v))), Slot("profile", Some(Str(a.profile))), StrSlot("session", a.session)]
  }

  lemma HelloAckNamed(a: HelloAck)
    ensures WellNamed(HelloAckFields(a))
  {
    hide Tag24;
  }

  lemma HelloAckLayout(a: HelloAck)
    ensures forall s | s in HelloAckSlots(a) :: ShortName(s.name)
    ensures EncodeHelloAck(a) == MapLayout(HelloAckSlots(a))
  {
    hide Encode, Tag24, Uint, Str, Int, Payload, MapLayout, EncodeFields, ShortName, Less, WellNamed;
    ItemBytes();
    NamesShort();
    NamesInOrder();
    HelloAckNamed(a);
    var sorted := [Field("v", Some(CUint(a.v))), Field("profile", Some(CText(a.profile))),
        Field("session", OptText(a.session))];
    OrderByNeighbours(sorted);
    MapOnTheWire(HelloAckFields(a), sorted, HelloAckSlots(a));
  }

  function HeartbeatSlots(h: Heartbeat): seq<Slot>
  {
    [UintSlot("at", h.at), Slot("nonce", Some(Uint(h.nonce)))]
  }

  lemma HeartbeatNamed(h: Heartbeat)
    ensures WellNamed(HeartbeatFields(h))
  {
    hide Tag24;
  }

  lemma HeartbeatLayout(h: Heartbeat)
    ensures forall s | s in HeartbeatSlots(h) :: ShortName(s.name)
    ensures EncodeHeartbeat(h) == MapLayout(HeartbeatSlots(h))
  {
    hide Encode, Tag24, Uint, Str, Int, Payload, MapLayout, EncodeFields, ShortName, Less, WellNamed;
    ItemBytes();
    NamesShort();
    NamesInOrder();
    HeartbeatNamed(h);
    var sorted := [Field("at", OptUint(h.at)), Field("nonce", Some(CUint(h.nonce)))];
    OrderByNeighbours(sorted);
    MapOnTheWire(HeartbeatFields(h), sorted, HeartbeatSlots(h));
  }

  function CloseSlots(c: Close): seq<Slot>
  {
    [StrSlot("reason", c.reason), Slot("status", Some(Int(c.status.code)))]
  }

  lemma CloseNamed(c: Close)
    ensures WellNamed(CloseFields(c))
  {
    hide Tag24;
  }

  lemma CloseLayout(c: Close)
    ensures forall s | s in CloseSlots(c) :: ShortName(s.name)
    ensures EncodeClose(c) == MapLayout(CloseSlots(c))
  {
    hide Encode, Tag24, Uint, Str, Int, Payload, MapLayout, EncodeFields, ShortName, Less, WellNamed;
    ItemBytes();
    NamesShort();
    NamesInOrder();
    CloseNamed(c);
    var sorted := [Field("reason", OptText(c.reason)), Field("status", Some(CInt(c.status.code)))];
    OrderByNeighbours(sorted);
    MapOnTheWire(CloseFields(c), sorted, CloseSlots(c));
  }

  function UintList(ns: seq<u64>): seq<byte> {
    if ns == [] then [] else Uint(ns[0]) + UintList(ns[1..])
  }

  function StrList(ts: seq<text>): seq<byte> {
    if ts == [] then [] else Str(ts[0]) + StrList(ts[1..])
  }

  lemma {:induction false} UintListBytes(ns: seq<u64>)
    ensures EncodeAll(Uints(ns)) == UintList(ns) && |Uints(ns)| == |ns|
    decreases |ns|
  {
    hide Encode, Uint;
    ItemBytes();
    if ns != [] {
      UintListBytes(ns[1..]);
      assert Uints(ns)[1..] == Uints(ns[1..]);
    }
  }

  lemma {:induction false} StrListBytes(ts: seq<text>)
    ensures EncodeAll(Texts(ts)) == StrList(ts) && |Texts(ts)| == |ts|
    decreases |ts|
  {
    hide Encode, Str;
    ItemBytes();
    if ts != [] {
      StrListBytes(ts[1..]);
      assert Texts(ts)[1..] == Texts(ts[1..]);
    }
  }

  function HelloSlots(h: Hello): seq<Slot> {
    [StrSlot("auth", h.auth), StrSlot("service", h.service),
     Slot("profiles", Some(ShortestHead(4, |h.profiles|) + StrList(h.profiles))),
     Slot("versions", Some(ShortestHead(4, |h.versions|) + UintList(h.versions)))]
  }

  lemma HelloNamed(h: Hello)
    ensures WellNamed(HelloFields(h))
  {
    hide Uints, Texts;
  }

  lemma HelloLayout(h: Hello)
    ensures forall s | s in HelloSlots(h) :: ShortName(s.name)
    ensures EncodeHello(h) == MapLayout(HelloSlots(h))
  {
    hide Encode, Str, MapLayout, EncodeFields, ShortName, Less, WellNamed, Uints, Texts, ShortestHead;
    ItemBytes();
    NamesShort();
    NamesInOrder();
    HelloNamed(h);
    UintListBytes(h.versions);
    StrListBytes(h.profiles);
    ArrayBytes(Uints(h.versions));
    ArrayBytes(Texts(h.profiles));
    var sorted := [Field("auth", OptText(h.auth)), Field("service", OptText(h.service)),
                   Field("profiles", Some(CArray(Texts(h.profiles)))),
                   Field("versions", Some(CArray(Uints(h.versions))))];
    OrderByNeighbours(sorted);
    MapOnTheWire(HelloFields(h), sorted, HelloSlots(h));
  }

  lemma ArrayBytes(vs: seq<Value>)
    ensures Encode(CArray(vs)) == ShortestHead(4, |vs|) + EncodeAll(vs)
  {
  }

  // ---- the array envelopes -------------------------------------------------------------------------------

  lemma AllBytes(v: Value, vs: seq<Value>)
    ensures EncodeAll([v] + vs) == Encode(v) + EncodeAll(vs) && EncodeAll([]) == []
  {
    hide Encode;
    assert ([v] + vs)[1..] == vs;
  }

  /** A compact event is an array of its ordinals, the correlation id if there is one, and the payload. */
  lemma CompactEventLayout(e: Event)
    requires e.serviceOrd.Some? && e.opOrd.Some?
    ensures EncodeEvent(e, ProfileCompact)
         == Ok([if e.id.Some? then 0x84 else 0x83]
               + (Uint(e.serviceOrd.value) + (Uint(e.opOrd.value)
                    + ((if e.id.Some? then Uint(e.id.value) else []) + Payload(e.payload)))))
  {
    hide Encode, EncodeAll, Tag24, Uint, Payload, ShortestHead;
    ItemBytes();
    var last := [Tag24(e.payload)];
    var tail := if e.id.Some? then [CUint(e.id.value)] + last else last;
    assert CompactItems(e) == [CUint(e.serviceOrd.value)] + ([CUint(e.opOrd.value)] + tail);
    AllBytes(Tag24(e.payload), []);
    assert [Tag24(e.payload)] + [] == last && Payload(e.payload) + [] == Payload(e.payload);
    if e.id.Some? {
      AllBytes(CUint(e.id.value), last);
    } else {
      assert [] + Payload(e.payload) == Payload(e.payload);
    }
    AllBytes(CUint(e.opOrd.value), tail);
    AllBytes(CUint(e.serviceOrd.value), [CUint(e.opOrd.value)] + tail);
    ArrayBytes(CompactItems(e));
    ShortHeads(if e.id.Some? then 4 else 3);
  }

  /** A datagram is an array of version, ordinal, sequence number and payload. */
  lemma DatagramLayout(d: Datagram)
    ensures EncodeDatagram(d) == [0x84] + ([1] + (Uint(d.opOrd) + (Uint(d.seqNo) + Payload(d.payload))))
  {
    hide Encode, EncodeAll, Tag24, Uint, Payload, ShortestHead;
    ItemBytes();
    var last := [Tag24(d.payload)];
    assert DatagramItems(d) == [CUint(VERSION)] + ([CUint(d.opOrd)] + ([CUint(d.seqNo)] + last));
    AllBytes(Tag24(d.payload), []);
    assert [Tag24(d.payload)] + [] == last && Payload(d.payload) + [] == Payload(d.payload);
    AllBytes(CUint(d.seqNo), last);
    AllBytes(CUint(d.opOrd), [CUint(d.seqNo)] + last);
    AllBytes(CUint(VERSION), [CUint(d.opOrd)] + ([CUint(d.seqNo)] + last));
    ArrayBytes(DatagramItems(d));
    ShortHeads(4);
  }
}
