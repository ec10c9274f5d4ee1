/** The concrete syntax of CBOR data items (section 3 of RFC 8949), independent of any
    decoder: a tree that records every choice an encoder may make (the width of each head,
    definite or indefinite length, how a string is cut into chunks) and its bytes.
    Both decoders are proved to accept exactly the renderings of such trees. */
module CborSyntax {
  import opened Basics
  import opened Bytes
  import Utf8

  /** The five argument sizes of section 3: in the initial byte, or 1, 2, 4, 8 bytes after it. */
  datatype Width = Inline | One | Two | Four | Eight

  function ArgBytes(w: Width): nat {
    match w
    case Inline => 0
    case One => 1
    case Two => 2
    case Four => 4
    case Eight => 8
  }

  function Limit(w: Width): nat {
    match w
    case Inline => 24
    case One => 0x100
    case Two => 0x1_0000
    case Four => 0x1_0000_0000
    case Eight => 0x1_0000_0000_0000_0000
  }

  function Info(w: Width): nat
    requires w != Inline
  {
    match w
    case One => 24
    case Two => 25
    case Four => 26
    case Eight => 27
  }

  /** The width whose low five bits are `low`; `None` for the reserved values and for 31. */
  function WidthOf(low: nat): Option<Width> {
    if low < 24 then Some(Inline)
    else if low == 24 then Some(One)
    else if low == 25 then Some(Two)
    else if low == 26 then Some(Four)
    else if low == 27 then Some(Eight)
    else None
  }

  function MinWidth(n: nat): Width {
    if n < 24 then Inline
    else if n < 0x100 then One
    else if n < 0x1_0000 then Two
    else if n < 0x1_0000_0000 then Four
    else Eight
  }

  /** An initial byte and its argument bytes. */
  function Head(major: nat, w: Width, n: nat): (b: seq<byte>)
    requires major < 8
    ensures |b| == 1 + ArgBytes(w)
  {
    if w == Inline then [32 * major + n % 24]
    else [32 * major + Info(w)] + BigEndian(n, ArgBytes(w))
  }

  /** One length-delimited piece of an indefinite-length string. */
  datatype Chunk = Chunk(w: Width, data: seq<byte>)

  datatype Cst =
    | Unsigned(w: Width, n: nat)
    | Negative(w: Width, n: nat)              // the value -1 - n
    | Bytes(w: Width, data: seq<byte>)
    | BytesChunked(chunks: seq<Chunk>)
    | Text(w: Width, data: seq<byte>)
    | TextChunked(chunks: seq<Chunk>)
    | Array(w: Width, items: seq<Cst>)
    | ArrayUntilBreak(items: seq<Cst>)
    | Map(w: Width, items: seq<Cst>)          // key, value, key, value, ...
    | MapUntilBreak(items: seq<Cst>)
    | Tagged(w: Width, num: nat, content: Cst)
    | Short(n: nat)                           // simple values 0..23 in the initial byte
    | Simple(n: nat)                          // simple values 32..255 in one more byte
    | Float(w: Width, bits: nat)

  const BREAK: byte := 0xFF

  function Render(c: Cst): (b: seq<byte>)
    ensures |b| > 0
  {
    match c
    case Unsigned(w, n) => Head(0, w, n)
    case Negative(w, n) => Head(1, w, n)
    case Bytes(w, data) => Head(2, w, |data|) + data
    case BytesChunked(chunks) => [0x5F] + RenderChunks(2, chunks) + [BREAK]
    case Text(w, data) => Head(3, w, |data|) + data
    case TextChunked(chunks) => [0x7F] + RenderChunks(3, chunks) + [BREAK]
    case Array(w, items) => Head(4, w, |items|) + RenderAll(items)
    case ArrayUntilBreak(items) => [0x9F] + RenderAll(items) + [BREAK]
    case Map(w, items) => Head(5, w, |items| / 2) + RenderAll(items)
    case MapUntilBreak(items) => [0xBF] + RenderAll(items) + [BREAK]
    case Tagged(w, num, content) => Head(6, w, num) + Render(content)
    case Short(n) => Head(7, Inline, n)
    case Simple(n) => Head(7, One, n)
    case Float(w, bits) => Head(7, w, bits)
  }

  function RenderAll(cs: seq<Cst>): (b: seq<byte>)
    ensures |b| >= |cs|
  {
    if cs == [] then [] else Render(cs[0]) + RenderAll(cs[1..])
  }

  function RenderChunks(major: nat, chunks: seq<Chunk>): seq<byte>
    requires major < 8
  {
    if chunks == [] then []
    else Head(major, chunks[0].w, |chunks[0].data|) + chunks[0].data + RenderChunks(major, chunks[1..])
  }

  function Joined(chunks: seq<Chunk>): seq<byte> {
    if chunks == [] then [] else chunks[0].data + Joined(chunks[1..])
  }

  /** Arguments fit their width, maps hold pairs, and major type 7 uses only its assigned
      forms (section 3.3). */
  predicate WellFormed(c: Cst) {
    match c
    case Unsigned(w, n) => n < Limit(w)
    case Negative(w, n) => n < Limit(w)
    case Bytes(w, data) => |data| < Limit(w)
    case BytesChunked(chunks) => ChunksFit(chunks)
    case Text(w, data) => |data| < Limit(w)
    case TextChunked(chunks) => ChunksFit(chunks)
    case Array(w, items) => |items| < Limit(w) && AllWellFormed(items)
    case ArrayUntilBreak(items) => AllWellFormed(items)
    case Map(w, items) => |items| % 2 == 0 && |items| / 2 < Limit(w) && AllWellFormed(items)
    case MapUntilBreak(items) => |items| % 2 == 0 && AllWellFormed(items)
    case Tagged(w, num, content) => num < Limit(w) && WellFormed(content)
    case Short(n) => n < 24
    case Simple(n) => 32 <= n < 256
    case Float(w, bits) => w in {Two, Four, Eight} && bits < Limit(w)
  }

  predicate AllWellFormed(cs: seq<Cst>) {
    cs != [] ==> WellFormed(cs[0]) && AllWellFormed(cs[1..])
  }

  predicate ChunksFit(chunks: seq<Chunk>) {
    forall i :: 0 <= i < |chunks| ==> |chunks[i].data| < Limit(chunks[i].w)
  }

  /** Text is UTF-8, each chunk on its own (section 3.2.3). */
  predicate TextValid(c: Cst) {
    match c
    case Text(_, data) => Utf8.Valid(data)
    case TextChunked(chunks) => ChunksValid(chunks)
    case Array(_, items) => AllTextValid(items)
    case ArrayUntilBreak(items) => AllTextValid(items)
    case Map(_, items) => AllTextValid(items)
    case MapUntilBreak(items) => AllTextValid(items)
    case Tagged(_, _, content) => TextValid(content)
    case _ => true
  }

  predicate AllTextValid(cs: seq<Cst>) {
    cs != [] ==> TextValid(cs[0]) && AllTextValid(cs[1..])
  }

  predicate ChunksValid(chunks: seq<Chunk>) {
    forall i :: 0 <= i < |chunks| ==> Utf8.Valid(chunks[i].data)
  }

  /** Nesting levels below the item itself: 0 for a leaf. */
  function Height(c: Cst): nat {
    match c
    case Array(_, items) => Levels(items)
    case ArrayUntilBreak(items) => Levels(items)
    case Map(_, items) => Levels(items)
    case MapUntilBreak(items) => Levels(items)
    case Tagged(_, _, content) => 1 + Height(content)
    case _ => 0
  }

  function Levels(cs: seq<Cst>): nat {
    if cs == [] then 0 else Max(1 + Height(cs[0]), Levels(cs[1..]))
  }

  // ---- heads can be read back ----------------------------------------------------------

  lemma LimitIsPower(w: Width)
    requires w != Inline
    ensures Limit(w) == Pow256(ArgBytes(w))
  {
    assert Pow256(1) == 0x100;
    assert Pow256(2) == 0x1_0000;
    assert Pow256(3) == 0x100_0000;
    assert Pow256(4) == 0x1_0000_0000;
    assert Pow256(5) == 0x100_0000_0000;
    assert Pow256(6) == 0x1_0000_0000_0000;
    assert Pow256(7) == 0x100_0000_0000_0000;
    assert Pow256(8) == 0x1_0000_0000_0000_0000;
  }

  /** What the initial byte of a head says, and the argument behind it. */
  lemma HeadFields(major: nat, w: Width, n: nat)
    requires major < 8 && n < Limit(w)
    ensures Head(major, w, n)[0] / 32 == major
    ensures WidthOf(Head(major, w, n)[0] % 32) == Some(w)
    ensures w == Inline ==> Head(major, w, n)[0] % 32 == n
    ensures w != Inline ==> FromBigEndian(Head(major, w, n)[1..]) == n
  {
    if w != Inline {
      LimitIsPower(w);
      BigEndianRoundTrip(n, ArgBytes(w));
    }
  }

  /** A first byte with argument bytes behind it is the head it spells. */
  lemma HeadSpelled(first: byte, arg: seq<byte>, w: Width)
    requires WidthOf(first % 32) == Some(w) && |arg| == ArgBytes(w)
    ensures var n := if w == Inline then first % 32 else FromBigEndian(arg);
            n < Limit(w) && Head(first / 32, w, n) == [first] + arg
  {
    if w != Inline {
      LimitIsPower(w);
      FromBigEndianRoundTrip(arg);
    }
  }

  lemma HeadUnique(m1: nat, w1: Width, n1: nat, m2: nat, w2: Width, n2: nat, b: seq<byte>)
    requires m1 < 8 && n1 < Limit(w1) && m2 < 8 && n2 < Limit(w2)
    requires Head(m1, w1, n1) <= b && Head(m2, w2, n2) <= b
    ensures m1 == m2 && w1 == w2 && n1 == n2
  {
    HeadFields(m1, w1, n1);
    HeadFields(m2, w2, n2);
    assert Head(m1, w1, n1)[0] == b[0] == Head(m2, w2, n2)[0];
    assert Head(m1, w1, n1)[1..] == b[1..1 + ArgBytes(w1)] == Head(m2, w2, n2)[1..];
  }

  // ---- the syntax is unambiguous and prefix-free ----------------------------------------

  function Major(c: Cst): nat {
    match c
    case Unsigned(_, _) => 0
    case Negative(_, _) => 1
    case Bytes(_, _) => 2
    case BytesChunked(_) => 2
    case Text(_, _) => 3
    case TextChunked(_) => 3
    case Array(_, _) => 4
    case ArrayUntilBreak(_) => 4
    case Map(_, _) => 5
    case MapUntilBreak(_) => 5
    case Tagged(_, _, _) => 6
    case _ => 7
  }

  predicate Indefinite(c: Cst) {
    c.BytesChunked? || c.TextChunked? || c.ArrayUntilBreak? || c.MapUntilBreak?
  }

  /** The head that opens a definite-length item. */
  function Opening(c: Cst): (Width, nat) {
    match c
    case Unsigned(w, n) => (w, n)
    case Negative(w, n) => (w, n)
    case Bytes(w, data) => (w, |data|)
    case Text(w, data) => (w, |data|)
    case Array(w, items) => (w, |items|)
    case Map(w, items) => (w, |items| / 2)
    case Tagged(w, num, _) => (w, num)
    case Short(n) => (Inline, n)
    case Simple(n) => (One, n)
    case Float(w, bits) => (w, bits)
    case _ => (Inline, 0)
  }

  /** Everything after the opening head, or after the initial byte of an indefinite item. */
  function Body(c: Cst): seq<byte> {
    match c
    case Bytes(_, data) => data
    case Text(_, data) => data
    case Array(_, items) => RenderAll(items)
    case Map(_, items) => RenderAll(items)
    case Tagged(_, _, content) => Render(content)
    case BytesChunked(chunks) => RenderChunks(2, chunks) + [BREAK]
    case TextChunked(chunks) => RenderChunks(3, chunks) + [BREAK]
    case ArrayUntilBreak(items) => RenderAll(items) + [BREAK]
    case MapUntilBreak(items) => RenderAll(items) + [BREAK]
    case _ => []
  }

  lemma RenderParts(c: Cst)
    requires WellFormed(c)
    ensures Indefinite(c) ==> Render(c) == [(32 * Major(c) + 31) as byte] + Body(c)
    ensures !Indefinite(c) ==> Opening(c).1 < Limit(Opening(c).0)
    ensures !Indefinite(c) ==> Render(c) == Head(Major(c), Opening(c).0, Opening(c).1) + Body(c)
  {
  }

  /** No item starts with the break byte, so a break is never mistaken for an item. */
  lemma StartsWith(c: Cst)
    requires WellFormed(c)
    ensures Render(c)[0] != BREAK && Render(c)[0] / 32 == Major(c)
    ensures Indefinite(c) <==> Render(c)[0] % 32 == 31
    ensures !Indefinite(c) ==> WidthOf(Render(c)[0] % 32) == Some(Opening(c).0)
  {
    RenderParts(c);
    if !Indefinite(c) {
      HeadFields(Major(c), Opening(c).0, Opening(c).1);
    }
  }

  /** Two items at the front of the same bytes are the same item. */
  lemma {:induction false} Unambiguous(c: Cst, d: Cst, b: seq<byte>)
    requires WellFormed(c) && WellFormed(d) && Render(c) <= b && Render(d) <= b
    ensures c == d
    decreases c, 1
  {
    hide Render, RenderAll, WellFormed;
    StartsWith(c);
    StartsWith(d);
    assert Render(c)[0] == b[0] == Render(d)[0];
    if Indefinite(c) {
      RenderParts(c);
      RenderParts(d);
      PrefixSplit([b[0]], Body(c), b);
      PrefixSplit([b[0]], Body(d), b);
      BodyUnambiguous(c, d, b[1..]);
    } else {
      SameOpening(c, d, b);
      BodyUnambiguous(c, d, b[1 + ArgBytes(Opening(c).0)..]);
    }
  }

  /** Two renderings that stand in the same place open alike, so their bodies do too. */
  lemma SameOpening(c: Cst, d: Cst, b: seq<byte>)
    requires WellFormed(c) && WellFormed(d) && Render(c) <= b && Render(d) <= b && !Indefinite(c) && !Indefinite(d)
    ensures Major(c) == Major(d) && Opening(c) == Opening(d)
    ensures 1 + ArgBytes(Opening(c).0) <= |b|
    ensures Body(c) <= b[1 + ArgBytes(Opening(c).0)..] && Body(d) <= b[1 + ArgBytes(Opening(c).0)..]
  {
    hide Render, WellFormed, Body, Head;
    RenderParts(c);
    RenderParts(d);
    PrefixSplit(Head(Major(c), Opening(c).0, Opening(c).1), Body(c), b);
    PrefixSplit(Head(Major(d), Opening(d).0, Opening(d).1), Body(d), b);
    HeadUnique(Major(c), Opening(c).0, Opening(c).1, Major(d), Opening(d).0, Opening(d).1, b);
  }

  lemma {:induction false} BodyUnambiguous(c: Cst, d: Cst, tail: seq<byte>)
    requires WellFormed(c) && WellFormed(d) && Body(c) <= tail && Body(d) <= tail
    requires Indefinite(c) == Indefinite(d) && Major(c) == Major(d)
    requires !Indefinite(c) ==> Opening(c) == Opening(d)
    ensures c == d
    decreases c, 0
  {
    hide Render, RenderAll, RenderChunks;
    match c {
      case BytesChunked(chunks) => ChunksUnambiguous(2, chunks, d.chunks, tail);
      case TextChunked(chunks) => ChunksUnambiguous(3, chunks, d.chunks, tail);
      case ArrayUntilBreak(items) => UntilBreakUnambiguous(items, d.items, tail);
      case MapUntilBreak(items) => UntilBreakUnambiguous(items, d.items, tail);
      case Array(w, items) => AllUnambiguous(items, d.items, tail);
      case Map(w, items) => AllUnambiguous(items, d.items, tail);
      case Tagged(w, num, content) => Unambiguous(content, d.content, tail);
      case _ =>
    }
  }

  lemma {:induction false} AllUnambiguous(cs: seq<Cst>, ds: seq<Cst>, b: seq<byte>)
    requires AllWellFormed(cs) && AllWellFormed(ds) && |cs| == |ds|
    requires RenderAll(cs) <= b && RenderAll(ds) <= b
    ensures cs == ds
    decreases cs, 2
  {
    if cs != [] {
      PrefixSplit(Render(cs[0]), RenderAll(cs[1..]), b);
      PrefixSplit(Render(ds[0]), RenderAll(ds[1..]), b);
      Unambiguous(cs[0], ds[0], b);
      AllUnambiguous(cs[1..], ds[1..], b[|Render(cs[0])|..]);
    }
  }

  lemma {:induction false} UntilBreakUnambiguous(cs: seq<Cst>, ds: seq<Cst>, b: seq<byte>)
    requires AllWellFormed(cs) && AllWellFormed(ds)
    requires RenderAll(cs) + [BREAK] <= b && RenderAll(ds) + [BREAK] <= b
    ensures cs == ds
    decreases cs, 2
  {
    hide WellFormed, Render;
    if cs != [] { StartsWith(cs[0]); RenderAllSplit(cs, b); }
    if ds != [] { StartsWith(ds[0]); RenderAllSplit(ds, b); }
    if cs != [] && ds != [] {
      Unambiguous(cs[0], ds[0], b);
      UntilBreakUnambiguous(cs[1..], ds[1..], b[|Render(cs[0])|..]);
    }
  }

  lemma RenderAllSplit(cs: seq<Cst>, b: seq<byte>)
    requires cs != [] && RenderAll(cs) + [BREAK] <= b
    ensures Render(cs[0]) <= b && b[0] == Render(cs[0])[0]
    ensures RenderAll(cs[1..]) + [BREAK] <= b[|Render(cs[0])|..]
  {
    assert RenderAll(cs) + [BREAK] == Render(cs[0]) + (RenderAll(cs[1..]) + [BREAK]);
    PrefixSplit(Render(cs[0]), RenderAll(cs[1..]) + [BREAK], b);
  }

  lemma {:induction false} ChunksUnambiguous(major: nat, cs: seq<Chunk>, ds: seq<Chunk>, b: seq<byte>)
    requires major < 7 && ChunksFit(cs) && ChunksFit(ds)
    requires RenderChunks(major, cs) + [BREAK] <= b && RenderChunks(major, ds) + [BREAK] <= b
    ensures cs == ds
    decreases |cs|
  {
    if cs != [] { RenderChunksSplit(major, cs, b); }
    if ds != [] { RenderChunksSplit(major, ds, b); }
    if cs != [] && ds != [] {
      HeadUnique(major, cs[0].w, |cs[0].data|, major, ds[0].w, |ds[0].data|, b);
      ChunksUnambiguous(major, cs[1..], ds[1..], b[1 + ArgBytes(cs[0].w)..][|cs[0].data|..]);
      assert cs[0] == ds[0];
      assert cs == [cs[0]] + cs[1..];
    }
  }

  lemma RenderChunksSplit(major: nat, cs: seq<Chunk>, b: seq<byte>)
    requires major < 7 && cs != [] && ChunksFit(cs) && RenderChunks(major, cs) + [BREAK] <= b
    ensures var head := Head(major, cs[0].w, |cs[0].data|);
            && head <= b && b[0] == head[0] && b[0] / 32 == major
            && cs[0].data <= b[|head|..]
            && RenderChunks(major, cs[1..]) + [BREAK] <= b[|head|..][|cs[0].data|..]
  {
    var head := Head(major, cs[0].w, |cs[0].data|);
    HeadFields(major, cs[0].w, |cs[0].data|);
    SplitThree(head, cs[0].data, RenderChunks(major, cs[1..]), [BREAK], b);
  }

  lemma SplitThree(s: seq<byte>, t: seq<byte>, u: seq<byte>, v: seq<byte>, b: seq<byte>)
    ensures (s + t + u) + v <= b <==> s <= b && t <= b[|s|..] && u + v <= b[|s|..][|t|..]
  {
    assert (s + t + u) + v == s + (t + (u + v));
    PrefixSplit(s, t + (u + v), b);
    if s <= b {
      PrefixSplit(t, u + v, b[|s|..]);
    }
  }
}
