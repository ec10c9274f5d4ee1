/** The diagnostic decoder of crates/csilgen-schema/src/cbor.rs as functions of the input and
    an offset, and the proof that it accepts exactly CBOR's syntax up to 64 levels. */
module RustCbor {
  import opened Bytes
  import Utf8
  import S = CborSyntax

  datatype FloatWidth = Sixteen | ThirtyTwo | SixtyFour

  datatype Spanned = Spanned(offset: nat, end: nat, value: Diagnostic)

  datatype Diagnostic =
    | Integer(i: int)
    | Float(width: FloatWidth, bits: u64)
    | Text(s: seq<byte>)
    | Bytes(b: seq<byte>)
    | Bool(flag: bool)
    | Null
    | Undefined
    | Simple(n: byte)
    | Array(items: seq<Spanned>)
    | Map(entries: seq<SpannedEntry>)
    | Tag(tag: u64, value: Spanned)
    | Decimal(exponent: int, mantissa: int)
    | Timestamp(originalTag: u64, value: Spanned)

  datatype SpannedEntry = SpannedEntry(key: Spanned, val: Spanned)

  datatype CborError = CborError(offset: nat, kind: ErrorKind)

  datatype ErrorKind =
    | NestingLimit
    | Truncated
    | TruncatedIndefinite
    | BreakOutside
    | IndefiniteNotValidHere
    | ReservedInfo
    | LengthOverflowsOffset
    | LengthTooLarge
    | BadChunk
    | InvalidUtf8
    | ArrayTooLong
    | MapTooLong
    | KeyWithoutValue
    | NonMinimalSimple
    | ReservedSimple
    | TrailingBytes

  /** A value read, and the offset behind it. */
  datatype Read<+T> = Read(value: T, next: nat)

  const MAX_DEPTH := 64

  // ---- the reader ----------------------------------------------------------------------------

  function Take(b: seq<byte>, off: nat, n: nat): (r: Result<Read<seq<byte>>, CborError>)
    requires off <= |b|
    ensures r.Ok? <==> off + n <= |b|
    ensures r.Ok? ==> r.value == Read(b[off..off + n], off + n)
  {
    if off + n <= |b| then Ok(Read(b[off..off + n], off + n))
    else if off + n >= 0x1_0000_0000_0000_0000 then Err(CborError(off, LengthOverflowsOffset))
    else Err(CborError(off, LengthTooLarge))
  }

  function Byte(b: seq<byte>, off: nat): Result<Read<byte>, CborError>
    requires off <= |b|
  {
    if off == |b| then Err(CborError(off, Truncated)) else Ok(Read(b[off], off + 1))
  }

  function Peek(b: seq<byte>, off: nat): Result<byte, CborError>
    requires off <= |b|
  {
    if off == |b| then Err(CborError(off, TruncatedIndefinite)) else Ok(b[off])
  }

  function Argument(b: seq<byte>, off: nat, additional: nat): (r: Result<Read<u64>, CborError>)
    requires off <= |b| && additional < 32
    ensures r.Ok? ==> off <= r.value.next <= |b|
  {
    match S.WidthOf(additional)
    case None => Err(CborError(off, if additional == 31 then IndefiniteNotValidHere else ReservedInfo))
    case Some(Inline) => Ok(Read(additional, off))
    case Some(One) =>
      var x :- Byte(b, off);
      Ok(Read(x.value, x.next))
    case Some(w) =>
      var arg :- Take(b, off, S.ArgBytes(w));
      FromBigEndianRoundTrip(arg.value);
      S.LimitIsPower(w);
      Ok(Read(FromBigEndian(arg.value), arg.next))
  }

  function Length(b: seq<byte>, off: nat, additional: nat): (r: Result<Read<Option<nat>>, CborError>)
    requires off <= |b| && additional < 32
    ensures r.Ok? ==> off <= r.value.next <= |b|
  {
    if additional == 31 then Ok(Read(None, off))
    else
      var arg :- Argument(b, off, additional);
      Ok(Read(Some(arg.value), arg.next))
  }

  /** The pieces of an indefinite-length string, up to its break. */
  function Chunks(b: seq<byte>, off: nat, major: nat): (r: Result<Read<seq<byte>>, CborError>)
    requires off <= |b|
    ensures r.Ok? ==> off < r.value.next <= |b|
    decreases |b| - off
  {
    var initial :- Peek(b, off);
    if initial == S.BREAK then Ok(Read([], off + 1))
    else if initial / 32 != major || initial % 32 == 31 then Err(CborError(off + 1, BadChunk))
    else
      var length :- Argument(b, off + 1, initial % 32);
      var chunk :- Take(b, length.next, length.value);
      if major == 3 && !Utf8.Valid(chunk.value) then Err(CborError(length.next, InvalidUtf8))
      else
        var rest :- Chunks(b, chunk.next, major);
        Ok(Read(chunk.value + rest.value, rest.next))
  }

  function String(b: seq<byte>, off: nat, major: nat, additional: nat): (r: Result<Read<seq<byte>>, CborError>)
    requires off <= |b| && additional < 32
    ensures r.Ok? ==> off <= r.value.next <= |b|
  {
    var length :- Length(b, off, additional);
    match length.value
    case None => Chunks(b, length.next, major)
    case Some(n) =>
      var data :- Take(b, length.next, n);
      if major == 3 && !Utf8.Valid(data.value) then Err(CborError(length.next, InvalidUtf8)) else Ok(data)
  }

  function SimpleValue(b: seq<byte>, off: nat, additional: nat): (r: Result<Read<Diagnostic>, CborError>)
    requires off <= |b| && additional < 32
    ensures r.Ok? ==> off <= r.value.next <= |b|
  {
    if additional < 20 then Ok(Read(Simple(additional), off))
    else if additional == 20 then Ok(Read(Bool(false), off))
    else if additional == 21 then Ok(Read(Bool(true), off))
    else if additional == 22 then Ok(Read(Null, off))
    else if additional == 23 then Ok(Read(Undefined, off))
    else if additional == 24 then
      var x :- Byte(b, off);
      if x.value < 32 then Err(CborError(x.next, NonMinimalSimple)) else Ok(Read(Simple(x.value), x.next))
    else if additional <= 27 then
      var bits :- Argument(b, off, additional);
      var width := if additional == 25 then Sixteen else if additional == 26 then ThirtyTwo else SixtyFour;
      Ok(Read(Float(width, bits.value), bits.next))
    else if additional == 31 then Err(CborError(off, BreakOutside))
    else Err(CborError(off, ReservedSimple))
  }

  /** Tags 0, 1 and 4 are recognised only over the shapes they are defined for. */
  function SemanticTag(tag: u64, inner: Spanned): Diagnostic {
    if tag == 4 && inner.value.Array? && |inner.value.items| == 2
       && inner.value.items[0].value.Integer? && inner.value.items[1].value.Integer? then
      Decimal(inner.value.items[0].value.i, inner.value.items[1].value.i)
    else if (tag == 0 && inner.value.Text?) || (tag == 1 && (inner.value.Integer? || inner.value.Float?)) then
      Timestamp(tag, inner)
    else Tag(tag, inner)
  }

  function Value(b: seq<byte>, off: nat, depth: nat): (r: Result<Read<Spanned>, CborError>)
    requires off <= |b|
    ensures r.Ok? ==> off < r.value.next <= |b|
    decreases |b| - off, 2, 0
  {
    if depth > MAX_DEPTH then Err(CborError(off, NestingLimit))
    else
      var initial :- Byte(b, off);
      if initial.value == S.BREAK then Err(CborError(off + 1, BreakOutside))
      else
        var content :- Content(b, off + 1, initial.value / 32, initial.value % 32, depth);
        Ok(Read(Spanned(off, content.next, content.value), content.next))
  }

  function Content(
      b: seq<byte>, off: nat, major: nat, additional: nat, depth: nat): (r: Result<Read<Diagnostic>, CborError>)
    requires off <= |b| && additional < 32
    ensures r.Ok? ==> off <= r.value.next <= |b|
    decreases |b| - off, 4, 0
  {
    match major
    case 0 =>
      var arg :- Argument(b, off, additional);
      Ok(Read(Integer(arg.value), arg.next))
    case 1 =>
      var arg :- Argument(b, off, additional);
      Ok(Read(Integer(-1 - arg.value), arg.next))
    case 2 =>
      var data :- String(b, off, 2, additional);
      Ok(Read(Bytes(data.value), data.next))
    case 3 =>
      var data :- String(b, off, 3, additional);
      Ok(Read(Text(data.value), data.next))
    case 4 =>
      var items :- ArrayItems(b, off, additional, depth);
      Ok(Read(Array(items.value), items.next))
    case 5 =>
      var items :- MapItems(b, off, additional, depth);
      Ok(Read(Map(PairUp(items.value)), items.next))
    case 6 =>
      var tag :- Argument(b, off, additional);
      var inner :- Value(b, tag.next, depth + 1);
      Ok(Read(SemanticTag(tag.value, inner.value), inner.next))
    case _ => SimpleValue(b, off, additional)
  }

  function ArrayItems(b: seq<byte>, off: nat, additional: nat, depth: nat): (r: Result<Read<seq<Spanned>>, CborError>)
    requires off <= |b| && additional < 32
    ensures r.Ok? ==> off <= r.value.next <= |b|
    decreases |b| - off, 3, 1
  {
    var length :- Length(b, off, additional);
    match length.value
    case Some(n) =>
      if n > |b| - length.next then Err(CborError(length.next, ArrayTooLong))
      else Counted(b, length.next, n, depth + 1)
    case None => UntilBreak(b, length.next, depth + 1)
  }

  /** The keys and values of a map in one row. A break in place of a value is an error. */
  function MapItems(b: seq<byte>, off: nat, additional: nat, depth: nat): (r: Result<Read<seq<Spanned>>, CborError>)
    requires off <= |b| && additional < 32
    ensures r.Ok? ==> off <= r.value.next <= |b| && |r.value.value| % 2 == 0
    decreases |b| - off, 3, 1
  {
    var length :- Length(b, off, additional);
    match length.value
    case Some(n) =>
      if n > (|b| - length.next) / 2 then Err(CborError(length.next, MapTooLong))
      else Counted(b, length.next, 2 * n, depth + 1)
    case None =>
      var items :- UntilBreak(b, length.next, depth + 1);
      if |items.value| % 2 == 1 then Err(CborError(items.next - 1, KeyWithoutValue)) else Ok(items)
  }

  function Counted(b: seq<byte>, off: nat, count: nat, depth: nat): (r: Result<Read<seq<Spanned>>, CborError>)
    requires off <= |b|
    ensures r.Ok? ==> off <= r.value.next <= |b| && |r.value.value| == count
    decreases |b| - off, 3, 0, count
  {
    if count == 0 then Ok(Read([], off))
    else
      var first :- Value(b, off, depth);
      var rest :- Counted(b, first.next, count - 1, depth);
      Ok(Read([first.value] + rest.value, rest.next))
  }

  function UntilBreak(b: seq<byte>, off: nat, depth: nat): (r: Result<Read<seq<Spanned>>, CborError>)
    requires off <= |b|
    ensures r.Ok? ==> off < r.value.next <= |b|
    decreases |b| - off, 3, 0, 0
  {
    var initial :- Peek(b, off);
    if initial == S.BREAK then Ok(Read([], off + 1))
    else
      var first :- Value(b, off, depth);
      var rest :- UntilBreak(b, first.next, depth);
      Ok(Read([first.value] + rest.value, rest.next))
  }

  function PairUp(items: seq<Spanned>): seq<SpannedEntry> {
    if |items| < 2 then [] else [SpannedEntry(items[0], items[1])] + PairUp(items[2..])
  }

  function Decode(b: seq<byte>): Result<Spanned, CborError> {
    var item :- Value(b, 0, 0);
    if item.next != |b| then Err(CborError(item.next, TrailingBytes)) else Ok(item.value)
  }

  // ---- what a syntax tree at an offset decodes to ------------------------------------------------

  function Node(c: S.Cst, off: nat): Spanned
    requires S.WellFormed(c)
    decreases c, 1
  {
    Spanned(off, off + |S.Render(c)|, Denoted(c, off))
  }

  function Denoted(c: S.Cst, off: nat): Diagnostic
    requires S.WellFormed(c)
    decreases c, 0
  {
    match c
    case Unsigned(_, n) => Integer(n)
    case Negative(_, n) => Integer(-1 - n)
    case Bytes(_, data) => Bytes(data)
    case BytesChunked(chunks) => Bytes(S.Joined(chunks))
    case Text(_, data) => Text(data)
    case TextChunked(chunks) => Text(S.Joined(chunks))
    case Array(w, items) => Array(Nodes(items, off + 1 + S.ArgBytes(w)))
    case ArrayUntilBreak(items) => Array(Nodes(items, off + 1))
    case Map(w, items) => Map(PairUp(Nodes(items, off + 1 + S.ArgBytes(w))))
    case MapUntilBreak(items) => Map(PairUp(Nodes(items, off + 1)))
    case Tagged(w, num, content) => SemanticTag(num, Node(content, off + 1 + S.ArgBytes(w)))
    case Short(n) =>
      if n < 20 then Simple(n) else if n < 22 then Bool(n == 21) else if n == 22 then Null else Undefined
    case Simple(n) => Simple(n)
    case Float(w, bits) => Float(if w == S.Two then Sixteen else if w == S.Four then ThirtyTwo else SixtyFour, bits)
  }

  function Nodes(cs: seq<S.Cst>, off: nat): (r: seq<Spanned>)
    requires S.AllWellFormed(cs)
    ensures |r| == |cs|
    decreases cs, 2
  {
    if cs == [] then [] else [Node(cs[0], off)] + Nodes(cs[1..], off + |S.Render(cs[0])|)
  }

  // ---- every rendering is accepted -----------------------------------------------------------------

  lemma ArgumentOfHead(major: nat, w: S.Width, n: nat, b: seq<byte>, off: nat)
    requires major < 8 && n < S.Limit(w) && off < |b| && S.Head(major, w, n) <= b[off..]
    ensures b[off] / 32 == major && S.WidthOf(b[off] % 32) == Some(w) && b[off] % 32 < 28
    ensures w == S.Inline ==> b[off] % 32 == n
    ensures Argument(b, off + 1, b[off] % 32) == Ok(Read(n, off + 1 + S.ArgBytes(w)))
  {
    S.HeadFields(major, w, n);
    assert b[off] == b[off..][0] == S.Head(major, w, n)[0];
    assert b[off + 1..off + 1 + S.ArgBytes(w)] == b[off..][..1 + S.ArgBytes(w)][1..] == S.Head(major, w, n)[1..];
    if w == S.One {
      assert FromBigEndian(b[off + 1..off + 2][..0]) == 0;
    }
  }

  /** Every rendering is accepted wherever it stands, with its node as the result. */
  lemma {:induction false} AcceptsRendering(c: S.Cst, b: seq<byte>, off: nat, depth: nat)
    requires S.WellFormed(c) && S.TextValid(c) && depth + S.Height(c) <= MAX_DEPTH
    requires off <= |b| && S.Render(c) <= b[off..]
    ensures Value(b, off, depth) == Ok(Read(Node(c, off), off + |S.Render(c)|))
    decreases c, 3
  {
    hide Content, S.Render, S.WellFormed, S.TextValid, S.Height, Denoted;
    S.StartsWith(c);
    assert b[off] == b[off..][0] == S.Render(c)[0];
    if S.Indefinite(c) {
      AcceptsIndefinite(c, b, off, depth);
    } else {
      AcceptsDefinite(c, b, off, depth);
    }
  }

  lemma {:induction false} AcceptsIndefinite(c: S.Cst, b: seq<byte>, off: nat, depth: nat)
    requires S.WellFormed(c) && S.TextValid(c) && depth + S.Height(c) <= MAX_DEPTH
    requires off < |b| && S.Render(c) <= b[off..] && S.Indefinite(c)
    ensures Content(b, off + 1, S.Major(c), 31, depth) == Ok(Read(Denoted(c, off), off + |S.Render(c)|))
    decreases c, 2
  {
    hide Argument, Value, Counted, UntilBreak, Chunks, S.RenderAll, S.RenderChunks, S.AllWellFormed, S.AllTextValid,
      S.Levels, Nodes, PairUp, S.Joined;
    S.RenderParts(c);
    PrefixSplit([(32 * S.Major(c) + 31) as byte], S.Body(c), b[off..]);
    match c {
      case BytesChunked(chunks) => AcceptsChunks(2, chunks, b, off + 1);
      case TextChunked(chunks) => AcceptsChunks(3, chunks, b, off + 1);
      case ArrayUntilBreak(items) => AcceptsUntilBreak(items, b, off + 1, depth + 1);
      case MapUntilBreak(items) => AcceptsUntilBreak(items, b, off + 1, depth + 1);
    }
  }

  lemma {:induction false} AcceptsDefinite(c: S.Cst, b: seq<byte>, off: nat, depth: nat)
    requires S.WellFormed(c) && S.TextValid(c) && depth + S.Height(c) <= MAX_DEPTH
    requires off < |b| && S.Render(c) <= b[off..] && !S.Indefinite(c)
    ensures Content(b, off + 1, b[off] / 32, b[off] % 32, depth) == Ok(Read(Denoted(c, off), off + |S.Render(c)|))
    decreases c, 2
  {
    hide Content, Argument, Value, Counted, UntilBreak, S.Render, S.RenderAll, S.AllWellFormed, S.AllTextValid,
      S.Levels, Nodes, Denoted;
    BodyAt(c, b, off);
    var k := off + 1 + S.ArgBytes(S.Opening(c).0);
    match c {
      case Array(_, items) =>
        AcceptsCounted(items, b, k, depth + 1);
        AcceptsContainer(c, b, off, depth);
      case Map(_, items) =>
        AcceptsCounted(items, b, k, depth + 1);
        AcceptsContainer(c, b, off, depth);
      case Tagged(_, _, content) =>
        AcceptsRendering(content, b, k, depth + 1);
        AcceptsTag(c, b, off, depth);
      case _ =>
        if c.Bytes? || c.Text? {
          AcceptsString(c, b, off, depth);
        } else {
          AcceptsLeaf(c, b, off, depth);
        }
    }
  }

  lemma AcceptsString(c: S.Cst, b: seq<byte>, off: nat, depth: nat)
    requires S.WellFormed(c) && S.TextValid(c) && off < |b| && S.Render(c) <= b[off..] && (c.Bytes? || c.Text?)
    ensures Content(b, off + 1, b[off] / 32, b[off] % 32, depth) == Ok(Read(Denoted(c, off), off + |S.Render(c)|))
  {
    hide S.Head, S.Render, S.WellFormed, Argument, ArrayItems, MapItems, Value, Chunks, Utf8.Valid, Nodes, PairUp,
      SemanticTag;
    BodyAt(c, b, off);
    ArgumentOfHead(S.Major(c), c.w, |c.data|, b, off);
    var k := off + 1 + S.ArgBytes(c.w);
    assert b[k..k + |c.data|] == c.data;
  }

  /** Behind the opening head stands the body. */
  lemma BodyAt(c: S.Cst, b: seq<byte>, off: nat)
    requires S.WellFormed(c) && off < |b| && S.Render(c) <= b[off..] && !S.Indefinite(c)
    ensures var k := off + 1 + S.ArgBytes(S.Opening(c).0); k <= |b| && S.Body(c) <= b[k..]
    ensures S.Head(S.Major(c), S.Opening(c).0, S.Opening(c).1) <= b[off..]
    ensures S.Opening(c).1 < S.Limit(S.Opening(c).0)
    ensures |S.Render(c)| == 1 + S.ArgBytes(S.Opening(c).0) + |S.Body(c)|
  {
    hide S.Render, S.WellFormed, S.Body, S.Head, S.Opening;
    S.RenderParts(c);
    PrefixSplit(S.Head(S.Major(c), S.Opening(c).0, S.Opening(c).1), S.Body(c), b[off..]);
  }

  lemma AcceptsLeaf(c: S.Cst, b: seq<byte>, off: nat, depth: nat)
    requires S.WellFormed(c) && off < |b| && S.Render(c) <= b[off..]
    requires c.Unsigned? || c.Negative? || c.Short? || c.Simple? || c.Float?
    ensures Content(b, off + 1, b[off] / 32, b[off] % 32, depth) == Ok(Read(Denoted(c, off), off + |S.Render(c)|))
  {
    hide S.Head, Argument, ArrayItems, MapItems, String, Value;
    var (w, n) := S.Opening(c);
    ArgumentOfHead(S.Major(c), w, n, b, off);
    if c.Simple? {
      SimpleByte(b, off + 1);
    }
  }

  lemma SimpleByte(b: seq<byte>, off: nat)
    requires off <= |b|
    ensures Argument(b, off, 24).Ok? ==> Byte(b, off) == Ok(Argument(b, off, 24).value)
  {
  }

  lemma {:induction false} AcceptsContainer(c: S.Cst, b: seq<byte>, off: nat, depth: nat)
    requires S.WellFormed(c) && off < |b| && S.Render(c) <= b[off..] && (c.Array? || c.Map?)
    requires var k := off + 1 + S.ArgBytes(c.w);
             && k <= |b|
             && Counted(b, k, |c.items|, depth + 1) == Ok(Read(Nodes(c.items, k), k + |S.RenderAll(c.items)|))
    ensures Content(b, off + 1, b[off] / 32, b[off] % 32, depth) == Ok(Read(Denoted(c, off), off + |S.Render(c)|))
  {
    hide S.Head, Argument, Value, Counted, UntilBreak, S.RenderAll, S.AllWellFormed, Nodes, PairUp;
    BodyAt(c, b, off);
    ArgumentOfHead(S.Major(c), S.Opening(c).0, S.Opening(c).1, b, off);
  }

  lemma AcceptsTag(c: S.Cst, b: seq<byte>, off: nat, depth: nat)
    requires S.WellFormed(c) && off < |b| && S.Render(c) <= b[off..] && c.Tagged?
    requires var k := off + 1 + S.ArgBytes(c.w);
             k <= |b| && Value(b, k, depth + 1) == Ok(Read(Node(c.content, k), k + |S.Render(c.content)|))
    ensures Content(b, off + 1, b[off] / 32, b[off] % 32, depth) == Ok(Read(Denoted(c, off), off + |S.Render(c)|))
  {
    hide S.Head, Argument, Value, SemanticTag;
    BodyAt(c, b, off);
    ArgumentOfHead(6, c.w, c.num, b, off);
  }

  lemma {:induction false} AcceptsCounted(cs: seq<S.Cst>, b: seq<byte>, off: nat, depth: nat)
    requires S.AllWellFormed(cs) && S.AllTextValid(cs) && depth + S.Levels(cs) <= MAX_DEPTH + 1
    requires off <= |b| && S.RenderAll(cs) <= b[off..]
    ensures Counted(b, off, |cs|, depth) == Ok(Read(Nodes(cs, off), off + |S.RenderAll(cs)|))
    decreases cs, 4
  {
    hide Value, S.Render, S.WellFormed, S.TextValid, S.Height, Node;
    if cs != [] {
      PrefixSplit(S.Render(cs[0]), S.RenderAll(cs[1..]), b[off..]);
      AcceptsRendering(cs[0], b, off, depth);
      AcceptsCounted(cs[1..], b, off + |S.Render(cs[0])|, depth);
    }
  }

  lemma {:induction false} AcceptsUntilBreak(cs: seq<S.Cst>, b: seq<byte>, off: nat, depth: nat)
    requires S.AllWellFormed(cs) && S.AllTextValid(cs) && depth + S.Levels(cs) <= MAX_DEPTH + 1
    requires off <= |b| && S.RenderAll(cs) + [S.BREAK] <= b[off..]
    ensures UntilBreak(b, off, depth) == Ok(Read(Nodes(cs, off), off + |S.RenderAll(cs)| + 1))
    decreases cs, 4
  {
    hide Value, S.Render, S.WellFormed, S.TextValid, S.Height, Node;
    if cs != [] {
      S.StartsWith(cs[0]);
      S.RenderAllSplit(cs, b[off..]);
      AcceptsRendering(cs[0], b, off, depth);
      AcceptsUntilBreak(cs[1..], b, off + |S.Render(cs[0])|, depth);
    }
  }

  lemma {:induction false} AcceptsChunks(major: nat, chunks: seq<S.Chunk>, b: seq<byte>, off: nat)
    requires major in {2, 3} && S.ChunksFit(chunks) && (major == 3 ==> S.ChunksValid(chunks))
    requires off <= |b| && S.RenderChunks(major, chunks) + [S.BREAK] <= b[off..]
    ensures Chunks(b, off, major) == Ok(Read(S.Joined(chunks), off + |S.RenderChunks(major, chunks)| + 1))
    decreases |chunks|
  {
    hide Argument, S.Head, Utf8.Valid, Chunks;
    if chunks == [] {
      NoChunks(b, off, major);
    } else {
      var first := chunks[0];
      S.RenderChunksSplit(major, chunks, b[off..]);
      ArgumentOfHead(major, first.w, |first.data|, b, off);
      var k := off + 1 + S.ArgBytes(first.w);
      assert b[k..k + |first.data|] == first.data;
      assert b[off..][|S.Head(major, first.w, |first.data|)|..][|first.data|..] == b[k + |first.data|..];
      AcceptsChunks(major, chunks[1..], b, k + |first.data|);
      OneChunk(b, off, major, first, k);
    }
  }

  lemma NoChunks(b: seq<byte>, off: nat, major: nat)
    requires off < |b| && b[off] == S.BREAK
    ensures Chunks(b, off, major) == Ok(Read([], off + 1))
  {
  }

  lemma OneChunk(b: seq<byte>, off: nat, major: nat, first: S.Chunk, k: nat)
    requires off < k <= k + |first.data| <= |b| && b[off] != S.BREAK && b[off] / 32 == major && b[off] % 32 != 31
    requires Argument(b, off + 1, b[off] % 32) == Ok(Read(|first.data|, k))
    requires b[k..k + |first.data|] == first.data && (major == 3 ==> Utf8.Valid(first.data))
    ensures Chunks(b, off, major) == match Chunks(b, k + |first.data|, major)
                                     case Ok(rest) => Ok(Read(first.data + rest.value, rest.next))
                                     case Err(e) => Err(e)
  {
    hide Argument, Utf8.Valid;
  }
}
