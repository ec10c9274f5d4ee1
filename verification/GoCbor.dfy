/** The Go codec of transports/go/cbor.go as functions, and what it guarantees. */
module GoCbor {
  import opened Bytes
  import Utf8
  import S = CborSyntax

  // ---- values and encoding ---------------------------------------------------------------

  datatype Value =
    | CUint(n: u64)
    | CInt(i: i64)
    | CText(s: seq<byte>)
    | CBytes(b: seq<byte>)
    | CArray(items: seq<Value>)
    | CMap(entries: seq<Entry>)
    | CTag(num: u64, content: Value)

  datatype Entry = Entry(key: Value, val: Value)

  const MAX_DEPTH := 64
  const MAX_INT64 := 0x7FFF_FFFF_FFFF_FFFF

  /** Lengths a Go slice or string can have. */
  predicate InMemory(v: Value) {
    match v
    case CText(s) => |s| <= MAX_INT64
    case CBytes(b) => |b| <= MAX_INT64
    case CArray(items) => |items| <= MAX_INT64 && forall x | x in items :: InMemory(x)
    case CMap(entries) => |entries| <= MAX_INT64 && forall e | e in entries :: EntryInMemory(e)
    case CTag(_, content) => InMemory(content)
    case _ => true
  }

  predicate EntryInMemory(e: Entry) {
    InMemory(e.key) && InMemory(e.val)
  }

  /** The shortest head for `n`. */
  function ShortestHead(major: nat, n: nat): seq<byte>
    requires major < 8
  {
    S.Head(major, S.MinWidth(n), n)
  }

  function Encode(v: Value): (b: seq<byte>)
    ensures |b| > 0
  {
    match v
    case CUint(n) => ShortestHead(0, n)
    case CInt(i) => if i >= 0 then ShortestHead(0, i) else ShortestHead(1, -1 - i)
    case CText(s) => ShortestHead(3, |s|) + s
    case CBytes(b) => ShortestHead(2, |b|) + b
    case CArray(items) => ShortestHead(4, |items|) + EncodeAll(items)
    case CMap(entries) => ShortestHead(5, |entries|) + EncodeEntries(entries)
    case CTag(num, content) => ShortestHead(6, num) + Encode(content)
  }

  function EncodeAll(vs: seq<Value>): seq<byte> {
    if vs == [] then [] else Encode(vs[0]) + EncodeAll(vs[1..])
  }

  function EncodeEntries(es: seq<Entry>): seq<byte> {
    if es == [] then [] else EncodeEntry(es[0]) + EncodeEntries(es[1..])
  }

  function EncodeEntry(e: Entry): seq<byte> {
    Encode(e.key) + Encode(e.val)
  }

  // ---- decoding ------------------------------------------------------------------------

  datatype DecodeError =
    | NestingLimit
    | EmptyInput
    | TruncatedArgument
    | ReservedInfo
    | NegativeOutOfRange
    | TruncatedBytes
    | TruncatedText
    | InvalidUtf8
    | ArrayTooLong
    | MapTooLong
    | UnsupportedMajor
    | TrailingBytes

  datatype Item = Item(value: Value, used: nat)
  datatype Items = Items(values: seq<Value>, used: nat)

  /** The argument of the head at the front of `b`, and the length of that head. */
  function ReadArg(b: seq<byte>, low: nat): (r: Result<(u64, nat), DecodeError>)
    requires b != []
    ensures r.Ok? ==> 1 <= r.value.1 <= |b|
  {
    match S.WidthOf(low)
    case None => Err(ReservedInfo)
    case Some(w) =>
      if w == S.Inline then (if low < 24 then Ok((low, 1)) else Err(ReservedInfo))
      else if |b| < 1 + S.ArgBytes(w) then Err(TruncatedArgument)
      else
        FromBigEndianRoundTrip(b[1..1 + S.ArgBytes(w)]);
        S.LimitIsPower(w);
        Ok((FromBigEndian(b[1..1 + S.ArgBytes(w)]), 1 + S.ArgBytes(w)))
  }

  function Decode(b: seq<byte>, depth: nat): (r: Result<Item, DecodeError>)
    ensures r.Ok? ==> 1 <= r.value.used <= |b|
    decreases |b|, 0, 0
  {
    if depth > MAX_DEPTH then Err(NestingLimit)
    else if b == [] then Err(EmptyInput)
    else
      var major, low := b[0] / 32, b[0] % 32;
      var (arg, n) :- ReadArg(b, low);
      match major
      case 0 => Ok(Item(CUint(arg), n))
      case 1 => if arg > MAX_INT64 then Err(NegativeOutOfRange) else Ok(Item(CInt(-1 - arg), n))
      case 2 => if arg > |b| - n then Err(TruncatedBytes) else Ok(Item(CBytes(b[n..n + arg]), n + arg))
      case 3 =>
        if arg > |b| - n then Err(TruncatedText)
        else if !Utf8.Valid(b[n..n + arg]) then Err(InvalidUtf8)
        else Ok(Item(CText(b[n..n + arg]), n + arg))
      case 4 =>
        if arg > |b| - n then Err(ArrayTooLong)
        else
          var items :- DecodeItems(b[n..], arg, depth + 1);
          Ok(Item(CArray(items.values), n + items.used))
      case 5 =>
        if arg > |b| - n then Err(MapTooLong)
        else
          var items :- DecodeItems(b[n..], 2 * arg, depth + 1);
          Ok(Item(CMap(Paired(items.values)), n + items.used))
      case 6 =>
        var content :- Decode(b[n..], depth + 1);
        Ok(Item(CTag(arg, content.value), n + content.used))
      case _ => Err(UnsupportedMajor)
  }

  /** `count` items in a row; a map's entries are read as twice as many items. */
  function DecodeItems(b: seq<byte>, count: nat, depth: nat): (r: Result<Items, DecodeError>)
    ensures r.Ok? ==> r.value.used <= |b| && |r.value.values| == count
    decreases |b|, 1, count
  {
    if count == 0 then Ok(Items([], 0))
    else
      var first :- Decode(b, depth);
      var rest :- DecodeItems(b[first.used..], count - 1, depth);
      Ok(Items([first.value] + rest.values, first.used + rest.used))
  }

  function Paired(vs: seq<Value>): seq<Entry> {
    if |vs| < 2 then [] else [Entry(vs[0], vs[1])] + Paired(vs[2..])
  }

  /** A whole envelope: one item and nothing after it. */
  function DecodeEnvelope(b: seq<byte>): Result<Value, DecodeError> {
    var item :- Decode(b, 0);
    if item.used != |b| then Err(TrailingBytes) else Ok(item.value)
  }

  // ---- the part of the syntax this codec reads --------------------------------------------

  /** Definite lengths only, no major type 7, and no integer below -2^63. */
  predicate Supported(c: S.Cst) {
    match c
    case Unsigned(_, _) => true
    case Negative(_, n) => n <= MAX_INT64
    case Bytes(_, _) => true
    case Text(_, _) => true
    case Array(_, items) => AllSupported(items)
    case Map(_, items) => AllSupported(items)
    case Tagged(_, _, content) => Supported(content)
    case _ => false
  }

  predicate AllSupported(cs: seq<S.Cst>) {
    cs != [] ==> Supported(cs[0]) && AllSupported(cs[1..])
  }

  /** The value a supported item denotes. */
  function ValueOf(c: S.Cst): Value
    requires S.WellFormed(c) && Supported(c)
  {
    match c
    case Unsigned(w, n) => CUint(n)
    case Negative(_, n) => CInt(-1 - n)
    case Bytes(_, data) => CBytes(data)
    case Text(_, data) => CText(data)
    case Array(_, items) => CArray(ValuesOf(items))
    case Map(_, items) => CMap(Paired(ValuesOf(items)))
    case Tagged(w, num, content) => CTag(num, ValueOf(content))
  }

  function ValuesOf(cs: seq<S.Cst>): (vs: seq<Value>)
    requires S.AllWellFormed(cs) && AllSupported(cs)
    ensures |vs| == |cs|
  {
    if cs == [] then [] else [ValueOf(cs[0])] + ValuesOf(cs[1..])
  }

  // ---- the decoder accepts exactly the supported syntax, up to 64 levels -------------------

  lemma ReadArgOfHead(major: nat, w: S.Width, n: nat, b: seq<byte>)
    requires major < 8 && n < S.Limit(w) && S.Head(major, w, n) <= b
    ensures b[0] / 32 == major
    ensures ReadArg(b, b[0] % 32) == Ok((n, 1 + S.ArgBytes(w)))
  {
    hide S.Head, S.Limit, FromBigEndian, BigEndian, Pow256;
    S.HeadFields(major, w, n);
    assert b[0] == S.Head(major, w, n)[0];
    assert b[1..1 + S.ArgBytes(w)] == S.Head(major, w, n)[1..];
  }

  lemma HeadOfReadArg(b: seq<byte>)
    requires b != [] && ReadArg(b, b[0] % 32).Ok?
    ensures var (n, k) := ReadArg(b, b[0] % 32).value;
            && S.WidthOf(b[0] % 32).Some?
            && var w := S.WidthOf(b[0] % 32).value;
            && n < S.Limit(w) && k == 1 + S.ArgBytes(w)
            && S.Head(b[0] / 32, w, n) == b[..k]
  {
    var w := S.WidthOf(b[0] % 32).value;
    S.HeadSpelled(b[0], b[1..1 + S.ArgBytes(w)], w);
    assert b[..1 + S.ArgBytes(w)] == [b[0]] + b[1..1 + S.ArgBytes(w)];
  }

  /** Every supported rendering is accepted, with the value it denotes, whatever follows. */
  lemma {:induction false} AcceptsRendering(c: S.Cst, b: seq<byte>, depth: nat)
    requires S.WellFormed(c) && S.TextValid(c) && Supported(c)
    requires depth + S.Height(c) <= MAX_DEPTH && S.Render(c) <= b
    ensures Decode(b, depth) == Ok(Item(ValueOf(c), |S.Render(c)|))
    decreases c, 0
  {
    hide Decode, DecodeItems, S.RenderAll, S.AllWellFormed, S.AllTextValid, AllSupported, S.Levels;
    S.RenderParts(c);
    var rest := b[1 + S.ArgBytes(S.Opening(c).0)..];
    PrefixSplit(S.Head(S.Major(c), S.Opening(c).0, S.Opening(c).1), S.Body(c), b);
    match c {
      case Array(_, items) =>
        AcceptsRenderings(items, rest, depth + 1);
        AcceptsContainer(c, items, b, depth);
      case Map(_, items) =>
        AcceptsRenderings(items, rest, depth + 1);
        AcceptsContainer(c, items, b, depth);
      case Tagged(w, num, content) =>
        AcceptsRendering(content, rest, depth + 1);
        AcceptsTag(w, num, content, b, depth);
      case _ => AcceptsLeaf(c, b, depth);
    }
  }

  lemma AcceptsLeaf(c: S.Cst, b: seq<byte>, depth: nat)
    requires S.WellFormed(c) && S.TextValid(c) && Supported(c) && depth <= MAX_DEPTH && S.Render(c) <= b
    requires c.Unsigned? || c.Negative? || c.Bytes? || c.Text?
    ensures Decode(b, depth) == Ok(Item(ValueOf(c), |S.Render(c)|))
  {
    hide DecodeItems, ReadArg, S.Head, Utf8.Valid;
    var head := S.Head(S.Major(c), S.Opening(c).0, S.Opening(c).1);
    PrefixSplit(head, S.Body(c), b);
    ReadArgOfHead(S.Major(c), S.Opening(c).0, S.Opening(c).1, b);
    assert b[|head|..|head| + |S.Body(c)|] == S.Body(c);
  }

  lemma {:induction false} AcceptsContainer(c: S.Cst, items: seq<S.Cst>, b: seq<byte>, depth: nat)
    requires S.WellFormed(c) && Supported(c) && depth <= MAX_DEPTH && S.Render(c) <= b
    requires (c.Array? || c.Map?) && c.items == items
    requires DecodeItems(b[1 + S.ArgBytes(c.w)..], |items|, depth + 1)
         == Ok(Items(ValuesOf(items), |S.RenderAll(items)|))
    ensures Decode(b, depth) == Ok(Item(ValueOf(c), |S.Render(c)|))
  {
    hide DecodeItems, ReadArg, S.Head, S.RenderAll, S.AllWellFormed, AllSupported, ValuesOf;
    ReadArgOfHead(S.Major(c), S.Opening(c).0, S.Opening(c).1, b);
  }

  lemma AcceptsTag(w: S.Width, num: nat, content: S.Cst, b: seq<byte>, depth: nat)
    requires S.WellFormed(S.Tagged(w, num, content)) && Supported(content)
    requires depth <= MAX_DEPTH && S.Head(6, w, num) <= b
    requires Decode(b[1 + S.ArgBytes(w)..], depth + 1) == Ok(Item(ValueOf(content), |S.Render(content)|))
    ensures Decode(b, depth) == Ok(Item(ValueOf(S.Tagged(w, num, content)), |S.Render(S.Tagged(w, num, content))|))
  {
    hide DecodeItems, ReadArg, S.Head;
    ReadArgOfHead(6, w, num, b);
  }

  lemma {:induction false} AcceptsRenderings(cs: seq<S.Cst>, b: seq<byte>, depth: nat)
    requires S.AllWellFormed(cs) && S.AllTextValid(cs) && AllSupported(cs)
    requires depth + S.Levels(cs) <= MAX_DEPTH + 1 && S.RenderAll(cs) <= b
    ensures DecodeItems(b, |cs|, depth) == Ok(Items(ValuesOf(cs), |S.RenderAll(cs)|))
    decreases cs, 1
  {
    hide Decode, S.Render, S.WellFormed, S.TextValid, Supported, S.Height, ValueOf;
    if cs != [] {
      PrefixSplit(S.Render(cs[0]), S.RenderAll(cs[1..]), b);
      AcceptsRendering(cs[0], b, depth);
      AcceptsRenderings(cs[1..], b[|S.Render(cs[0])|..], depth);
    }
  }

  /** Everything accepted is a supported rendering of the value returned. */
  lemma {:induction false} AcceptedIsRendering(b: seq<byte>, depth: nat) returns (c: S.Cst)
    requires Decode(b, depth).Ok?
    ensures S.WellFormed(c) && S.TextValid(c) && Supported(c) && depth + S.Height(c) <= MAX_DEPTH
    ensures Decode(b, depth).value == Item(ValueOf(c), |S.Render(c)|)
    ensures S.Render(c) == b[..|S.Render(c)|]
    decreases |b|, 0, 0
  {
    hide DecodeItems, ReadArg, S.Head, S.RenderAll, S.AllWellFormed, S.AllTextValid, AllSupported, S.Levels, ValuesOf;
    HeadOfReadArg(b);
    var major, w := b[0] / 32, S.WidthOf(b[0] % 32).value;
    var (arg, n) := ReadArg(b, b[0] % 32).value;
    if major == 6 {
      var content := AcceptedIsRendering(b[n..], depth + 1);
      c := S.Tagged(w, arg, content);
      TakeSplit(b, n, |S.Render(content)|);
    } else if major == 4 || major == 5 {
      var count := if major == 4 then arg else 2 * arg;
      var items := AcceptedAreRenderings(b[n..], count, depth + 1);
      c := if major == 4 then S.Array(w, items) else S.Map(w, items);
      TakeSplit(b, n, |S.RenderAll(items)|);
    } else {
      c := AcceptedLeaf(b, depth);
    }
  }

  lemma AcceptedLeaf(b: seq<byte>, depth: nat) returns (c: S.Cst)
    requires Decode(b, depth).Ok? && b[0] / 32 !in {4, 5, 6}
    ensures S.WellFormed(c) && S.TextValid(c) && Supported(c) && S.Height(c) == 0
    ensures Decode(b, depth).value == Item(ValueOf(c), |S.Render(c)|)
    ensures S.Render(c) == b[..|S.Render(c)|]
  {
    hide DecodeItems, ReadArg, S.Head, S.RenderAll, Utf8.Valid;
    HeadOfReadArg(b);
    var major, w := b[0] / 32, S.WidthOf(b[0] % 32).value;
    var (arg, n) := ReadArg(b, b[0] % 32).value;
    match major {
      case 0 => c := S.Unsigned(w, arg);
      case 1 => c := S.Negative(w, arg);
      case 2 =>
        c := S.Bytes(w, b[n..n + arg]);
        TakeSplit(b, n, arg);
      case 3 =>
        c := S.Text(w, b[n..n + arg]);
        TakeSplit(b, n, arg);
    }
  }

  lemma {:induction false} AcceptedAreRenderings(b: seq<byte>, count: nat, depth: nat) returns (cs: seq<S.Cst>)
    requires DecodeItems(b, count, depth).Ok?
    ensures S.AllWellFormed(cs) && S.AllTextValid(cs) && AllSupported(cs) && |cs| == count
    ensures S.Levels(cs) > 0 ==> depth + S.Levels(cs) <= MAX_DEPTH + 1
    ensures DecodeItems(b, count, depth).value == Items(ValuesOf(cs), |S.RenderAll(cs)|)
    ensures S.RenderAll(cs) == b[..|S.RenderAll(cs)|]
    decreases |b|, 1, count
  {
    hide Decode, S.Render, S.WellFormed, S.TextValid, Supported, S.Height, ValueOf;
    if count == 0 {
      cs := [];
    } else {
      var k := Decode(b, depth).value.used;
      var first := AcceptedIsRendering(b, depth);
      var rest := AcceptedAreRenderings(b[k..], count - 1, depth);
      cs := [first] + rest;
      assert cs[1..] == rest;
      assert b[..k + |S.RenderAll(rest)|] == b[..k] + b[k..][..|S.RenderAll(rest)|];
    }
  }
}
