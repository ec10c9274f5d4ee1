/** CBOR's data model (section 2 of RFC 8949), free of representation, and what both decoders
    make of it: they agree wherever the Go one accepts, and the exact difference is known. */
module CborAgreement {
  import opened Bytes
  import Utf8
  import S = CborSyntax
  import G = GoCbor
  import R = RustCbor
  import RustSoundness

  datatype Data =
    | Int(i: int)
    | Bytes(b: seq<byte>)
    | Text(s: seq<byte>)
    | List(items: seq<Data>)
    | Table(items: seq<Data>)            // key, value, key, value, ...
    | Tagged(num: nat, content: Data)
    | Simple(n: nat)
    | Float(width: R.FloatWidth, bits: nat)

  /** The data item a syntax tree stands for, whatever widths, chunks and breaks it uses. */
  function DataOf(c: S.Cst): Data {
    match c
    case Unsigned(_, n) => Int(n)
    case Negative(_, n) => Int(-1 - n)
    case Bytes(_, data) => Bytes(data)
    case BytesChunked(chunks) => Bytes(S.Joined(chunks))
    case Text(_, data) => Text(data)
    case TextChunked(chunks) => Text(S.Joined(chunks))
    case Array(_, items) => List(DataOfAll(items))
    case ArrayUntilBreak(items) => List(DataOfAll(items))
    case Map(_, items) => Table(DataOfAll(items))
    case MapUntilBreak(items) => Table(DataOfAll(items))
    case Tagged(_, num, content) => Tagged(num, DataOf(content))
    case Short(n) => Simple(n)
    case Simple(n) => Simple(n)
    case Float(w, bits) =>
      Float(if w == S.Two then R.Sixteen else if w == S.Four then R.ThirtyTwo else R.SixtyFour, bits)
  }

  function DataOfAll(cs: seq<S.Cst>): (ds: seq<Data>)
    ensures |ds| == |cs|
  {
    if cs == [] then [] else [DataOf(cs[0])] + DataOfAll(cs[1..])
  }

  // ---- the Rust decoder's value, apart from spans ---------------------------------------------

  /** A diagnostic value with every span erased. */
  function Strip(s: R.Spanned): R.Spanned {
    R.Spanned(0, 0, StripValue(s.value))
  }

  function StripValue(d: R.Diagnostic): R.Diagnostic {
    match d
    case Array(items) => R.Array(StripAll(items))
    case Map(entries) => R.Map(StripEntries(entries))
    case Tag(tag, value) => R.Tag(tag, Strip(value))
    case Timestamp(tag, value) => R.Timestamp(tag, Strip(value))
    case _ => d
  }

  function StripAll(items: seq<R.Spanned>): (r: seq<R.Spanned>)
    ensures |r| == |items|
  {
    if items == [] then [] else [Strip(items[0])] + StripAll(items[1..])
  }

  function StripEntry(e: R.SpannedEntry): R.SpannedEntry {
    R.SpannedEntry(Strip(e.key), Strip(e.val))
  }

  function StripEntries(es: seq<R.SpannedEntry>): seq<R.SpannedEntry> {
    if es == [] then [] else [StripEntry(es[0])] + StripEntries(es[1..])
  }

  /** What the Rust decoder should report for a data item: the item itself, with tags 0, 1
      and 4 recognised over the shapes they are defined for. */
  function Reported(d: Data): R.Spanned
    requires Representable(d)
    decreases d, 0
  {
    match d
    case Int(i) => R.Spanned(0, 0, R.Integer(i))
    case Bytes(b) => R.Spanned(0, 0, R.Bytes(b))
    case Text(s) => R.Spanned(0, 0, R.Text(s))
    case List(items) => R.Spanned(0, 0, R.Array(ReportedAll(items)))
    case Table(items) => R.Spanned(0, 0, R.Map(R.PairUp(ReportedAll(items))))
    case Tagged(num, content) => R.Spanned(0, 0, TagReported(num, content))
    case Simple(n) =>
      R.Spanned(0, 0,
        if n == 20 || n == 21 then R.Bool(n == 21)
        else if n == 22 then R.Null
        else if n == 23 then R.Undefined
        else R.Simple(n))
    case Float(width, bits) => R.Spanned(0, 0, R.Float(width, bits))
  }

  /** Tag 4 over two integers is a decimal fraction, exponent first; tag 0 over a text and tag 1 over a
      number are timestamps; any other tag is kept with its content (sections 3.4.1, 3.4.2 and 3.4.4 of
      RFC 8949). */
  function TagReported(num: u64, content: Data): R.Diagnostic
    requires Representable(content)
    decreases content, 1
  {
    if num == 4 && IsIntPair(content) then
      var exponent, mantissa := content.items[0].i, content.items[1].i;
      R.Decimal(exponent, mantissa)
    else if (num == 0 && content.Text?) || (num == 1 && (content.Int? || content.Float?)) then
      R.Timestamp(num, Reported(content))
    else R.Tag(num, Reported(content))
  }

  predicate IsIntPair(d: Data) {
    d.List? && |d.items| == 2 && d.items[0].Int? && d.items[1].Int?
  }

  function ReportedAll(ds: seq<Data>): (r: seq<R.Spanned>)
    requires AllRepresentable(ds)
    ensures |r| == |ds|
    decreases ds, 0
  {
    if ds == [] then [] else [Reported(ds[0])] + ReportedAll(ds[1..])
  }

  /** Tag numbers, simple values and float bits that CBOR can carry at all. */
  predicate Representable(d: Data) {
    match d
    case List(items) => AllRepresentable(items)
    case Table(items) => AllRepresentable(items)
    case Tagged(num, content) => num < 0x1_0000_0000_0000_0000 && Representable(content)
    case Simple(n) => n < 256
    case Float(_, bits) => bits < 0x1_0000_0000_0000_0000
    case _ => true
  }

  predicate AllRepresentable(ds: seq<Data>) {
    ds != [] ==> Representable(ds[0]) && AllRepresentable(ds[1..])
  }

  /** A node, spans erased, is what its data item should be reported as. */
  lemma {:induction false} StripNode(c: S.Cst, off: nat)
    requires S.WellFormed(c)
    ensures Representable(DataOf(c)) && Strip(R.Node(c, off)) == Reported(DataOf(c))
    decreases c, 0
  {
    hide R.SemanticTag, R.PairUp, StripEntries, R.Nodes, S.AllWellFormed, DataOfAll, ReportedAll, AllRepresentable,
      StripAll, S.Joined, S.RenderAll, S.RenderChunks, S.Head;
    match c {
      case Array(w, items) => StripNodes(items, off + 1 + S.ArgBytes(w));
      case ArrayUntilBreak(items) => StripNodes(items, off + 1);
      case Map(w, items) => StripNodes(items, off + 1 + S.ArgBytes(w));
      case MapUntilBreak(items) => StripNodes(items, off + 1);
      case Tagged(w, num, content) =>
        StripNode(content, off + 1 + S.ArgBytes(w));
        StripSemanticTag(num, R.Node(content, off + 1 + S.ArgBytes(w)));
        TagIsReported(num, DataOf(content));
      case _ =>
    }
  }

  lemma {:induction false} StripNodes(cs: seq<S.Cst>, off: nat)
    requires S.AllWellFormed(cs)
    ensures AllRepresentable(DataOfAll(cs)) && StripAll(R.Nodes(cs, off)) == ReportedAll(DataOfAll(cs))
    ensures StripEntries(R.PairUp(R.Nodes(cs, off))) == R.PairUp(ReportedAll(DataOfAll(cs)))
    decreases cs, 1
  {
    hide R.Node, S.WellFormed, DataOf, Reported, Strip, Representable, StripEntries, R.PairUp;
    if cs != [] {
      StripNode(cs[0], off);
      StripNodes(cs[1..], off + |S.Render(cs[0])|);
    }
    StripPairs(R.Nodes(cs, off));
  }

  lemma {:induction false} StripPairs(items: seq<R.Spanned>)
    ensures StripEntries(R.PairUp(items)) == R.PairUp(StripAll(items))
    decreases |items|
  {
    hide Strip;
    if |items| >= 2 {
      StripPairs(items[2..]);
      assert StripAll(items)[2..] == StripAll(items[1..][1..]);
    }
  }

  lemma StripSemanticTag(tag: u64, inner: R.Spanned)
    ensures StripValue(R.SemanticTag(tag, inner)) == R.SemanticTag(tag, Strip(inner))
  {
    if inner.value.Array? && |inner.value.items| == 2 {
      var items := inner.value.items;
      assert StripAll(items) == [Strip(items[0])] + StripAll(items[1..]);
      assert StripAll(items[1..]) == [Strip(items[1])] + StripAll(items[1..][1..]);
    }
  }

  /** The decoder recognises tags where the data model says so. */
  lemma TagIsReported(num: u64, content: Data)
    requires Representable(content)
    ensures R.SemanticTag(num, Reported(content)) == TagReported(num, content)
  {
    if content.List? && |content.items| == 2 {
      ReportedPair(content.items);
    }
  }

  lemma ReportedPair(ds: seq<Data>)
    requires AllRepresentable(ds) && |ds| == 2
    ensures Representable(ds[0]) && Representable(ds[1])
    ensures ReportedAll(ds) == [Reported(ds[0]), Reported(ds[1])]
    ensures forall i :: 0 <= i < 2 ==> (Reported(ds[i]).value.Integer? <==> ds[i].Int?)
    ensures forall i :: 0 <= i < 2 && ds[i].Int? ==> Reported(ds[i]).value == R.Integer(ds[i].i)
  {
    hide Reported, Representable;
    assert ds[1..][0] == ds[1] && ds[1..][1..] == [];
    assert AllRepresentable(ds[1..]);
    OnlyIntsAreIntegers(ds[0]);
    OnlyIntsAreIntegers(ds[1]);
  }

  lemma OnlyIntsAreIntegers(d: Data)
    requires Representable(d)
    ensures Reported(d).value.Integer? <==> d.Int?
    ensures d.Int? ==> Reported(d).value == R.Integer(d.i)
  {
    hide R.PairUp, ReportedAll;
  }

  /** Renderings of one data item, however different their bytes, decode alike. */
  lemma {:induction false} EveryRenderingDecodesAlike(c: S.Cst)
    requires S.WellFormed(c) && S.TextValid(c) && S.Height(c) <= R.MAX_DEPTH
    ensures R.Decode(S.Render(c)).Ok? && Representable(DataOf(c))
    ensures Strip(R.Decode(S.Render(c)).value) == Reported(DataOf(c))
  {
    hide *;
    DecodesRendering(c);
    StripNode(c, 0);
  }

  /** A tagged item is reported as RFC 8949 defines its tag: the exponent of a decimal fraction comes
      before its mantissa, a timestamp keeps its content, and no other tag is interpreted. */
  lemma {:induction false} TagsRecognised(c: S.Cst)
    requires S.WellFormed(c) && S.TextValid(c) && S.Height(c) <= R.MAX_DEPTH && DataOf(c).Tagged?
    ensures Representable(DataOf(c)) && R.Decode(S.Render(c)).Ok?
    ensures var (num, content) := (DataOf(c).num, DataOf(c).content);
            var value := Strip(R.Decode(S.Render(c)).value).value;
            && (forall e, m :: num == 4 && content == List([Int(e), Int(m)]) <==> value == R.Decimal(e, m))
            && (value.Timestamp? <==> (num == 0 && content.Text?) || (num == 1 && (content.Int? || content.Float?)))
            && (value.Timestamp? ==> value == R.Timestamp(num, Reported(content)))
            && (!value.Decimal? && !value.Timestamp? ==> value == R.Tag(num, Reported(content)))
  {
    hide S.Render, S.WellFormed, S.TextValid, S.Height, R.Decode, R.SemanticTag, DataOf, ReportedAll, Strip;
    EveryRenderingDecodesAlike(c);
    PairOfInts(DataOf(c).content);
  }

  lemma PairOfInts(d: Data)
    ensures IsIntPair(d) ==> d == List([Int(d.items[0].i), Int(d.items[1].i)])
  {
  }

  lemma DecodesRendering(c: S.Cst)
    requires S.WellFormed(c) && S.TextValid(c) && S.Height(c) <= R.MAX_DEPTH
    ensures R.Decode(S.Render(c)) == Ok(R.Node(c, 0))
  {
    hide R.Value, S.Render, S.WellFormed, S.TextValid, S.Height, R.Denoted;
    assert S.Render(c)[0..] == S.Render(c);
    R.AcceptsRendering(c, S.Render(c), 0, 0);
  }

  /** The Rust decoder accepts exactly the renderings of trees with at most 64 levels and
      valid text. */
  lemma {:induction false} RustAcceptsExactly(b: seq<byte>)
    ensures R.Decode(b).Ok? <==>
      exists c :: S.WellFormed(c) && S.TextValid(c) && S.Height(c) <= R.MAX_DEPTH && S.Render(c) == b
  {
    hide S.Render, S.WellFormed, S.TextValid, S.Height, R.Denoted, R.Value;
    if R.Decode(b).Ok? {
      var c := RustTree(b);
    }
    if c :| S.WellFormed(c) && S.TextValid(c) && S.Height(c) <= R.MAX_DEPTH && S.Render(c) == b {
      DecodesRendering(c);
    }
  }

  /** Every text string the decoders hand out is UTF-8, chunked or not. */
  lemma {:induction false} TextsAreUtf8(c: S.Cst)
    requires S.TextValid(c)
    ensures TextsValid(DataOf(c))
    decreases c, 0
  {
    match c {
      case TextChunked(chunks) => JoinedValid(chunks);
      case Array(_, items) => AllTextsAreUtf8(items);
      case ArrayUntilBreak(items) => AllTextsAreUtf8(items);
      case Map(_, items) => AllTextsAreUtf8(items);
      case MapUntilBreak(items) => AllTextsAreUtf8(items);
      case Tagged(_, _, content) => TextsAreUtf8(content);
      case _ =>
    }
  }

  lemma {:induction false} AllTextsAreUtf8(cs: seq<S.Cst>)
    requires S.AllTextValid(cs)
    ensures forall d | d in DataOfAll(cs) :: TextsValid(d)
    decreases cs, 1
  {
    hide S.TextValid, TextsValid, DataOf;
    if cs != [] {
      TextsAreUtf8(cs[0]);
      AllTextsAreUtf8(cs[1..]);
    }
  }

  predicate TextsValid(d: Data) {
    match d
    case Text(s) => Utf8.Valid(s)
    case List(items) => forall x | x in items :: TextsValid(x)
    case Table(items) => forall x | x in items :: TextsValid(x)
    case Tagged(_, content) => TextsValid(content)
    case _ => true
  }

  lemma {:induction false} JoinedValid(chunks: seq<S.Chunk>)
    requires S.ChunksValid(chunks)
    ensures Utf8.Valid(S.Joined(chunks))
    decreases |chunks|
  {
    if chunks != [] {
      JoinedValid(chunks[1..]);
      Utf8.ValidConcat(chunks[0].data, S.Joined(chunks[1..]));
    }
  }

  lemma RustTree(b: seq<byte>) returns (c: S.Cst)
    requires R.Decode(b).Ok?
    ensures S.WellFormed(c) && S.TextValid(c) && S.Height(c) <= R.MAX_DEPTH && S.Render(c) == b
    ensures R.Decode(b).value == R.Node(c, 0)
  {
    hide S.Render, S.WellFormed, S.TextValid, S.Height, R.Denoted, R.Value;
    c := RustSoundness.AcceptedIsRendering(b, 0, 0);
    assert b[0..|b|] == b;
  }

  // ---- the two decoders ---------------------------------------------------------------------------

  /** The data item a Go value stands for. */
  function GoData(v: G.Value): Data {
    match v
    case CUint(n) => Int(n)
    case CInt(i) => Int(i)
    case CText(s) => Text(s)
    case CBytes(b) => Bytes(b)
    case CArray(items) => List(GoDataAll(items))
    case CMap(entries) => Table(GoDataEntries(entries))
    case CTag(num, content) => Tagged(num, GoData(content))
  }

  function GoDataAll(vs: seq<G.Value>): seq<Data> {
    if vs == [] then [] else [GoData(vs[0])] + GoDataAll(vs[1..])
  }

  function GoDataEntry(e: G.Entry): seq<Data> {
    [GoData(e.key), GoData(e.val)]
  }

  function GoDataEntries(es: seq<G.Entry>): seq<Data> {
    if es == [] then [] else GoDataEntry(es[0]) + GoDataEntries(es[1..])
  }

  lemma {:induction false} GoDataOf(c: S.Cst)
    requires S.WellFormed(c) && G.Supported(c)
    ensures GoData(G.ValueOf(c)) == DataOf(c)
    decreases c, 0
  {
    match c {
      case Array(_, items) => GoDataOfAll(items);
      case Map(_, items) => GoDataOfAll(items);
      case Tagged(_, _, content) => GoDataOf(content);
      case _ =>
    }
  }

  lemma {:induction false} GoDataOfAll(cs: seq<S.Cst>)
    requires S.AllWellFormed(cs) && G.AllSupported(cs)
    ensures GoDataAll(G.ValuesOf(cs)) == DataOfAll(cs)
    ensures |cs| % 2 == 0 ==> GoDataEntries(G.Paired(G.ValuesOf(cs))) == DataOfAll(cs)
    decreases cs, 1
  {
    hide S.WellFormed, G.Supported, G.ValueOf, DataOf, GoData, GoDataEntries, G.Paired;
    if cs != [] {
      GoDataOf(cs[0]);
      GoDataOfAll(cs[1..]);
    }
    if |cs| % 2 == 0 {
      GoDataPaired(G.ValuesOf(cs));
    }
  }

  lemma {:induction false} GoDataPaired(vs: seq<G.Value>)
    requires |vs| % 2 == 0
    ensures GoDataEntries(G.Paired(vs)) == GoDataAll(vs)
    decreases |vs|
  {
    hide GoData;
    if vs != [] {
      GoDataPaired(vs[2..]);
      assert vs[1..][1..] == vs[2..];
    }
  }

  /** The Go decoder accepts exactly the renderings of supported trees with at most 64 levels
      and valid text. */
  lemma {:induction false} GoAcceptsExactly(b: seq<byte>)
    ensures G.DecodeEnvelope(b).Ok? <==>
      exists c :: S.WellFormed(c) && S.TextValid(c) && S.Height(c) <= G.MAX_DEPTH && G.Supported(c) && S.Render(c) == b
  {
    hide G.Decode, S.Render, S.WellFormed, S.TextValid, S.Height, G.Supported, G.ValueOf;
    if G.DecodeEnvelope(b).Ok? {
      var c := GoTree(b);
    }
    if c :| S.WellFormed(c) && S.TextValid(c) && S.Height(c) <= G.MAX_DEPTH && G.Supported(c) && S.Render(c) == b {
      G.AcceptsRendering(c, b, 0);
    }
  }

  lemma GoTree(b: seq<byte>) returns (c: S.Cst)
    requires G.DecodeEnvelope(b).Ok?
    ensures S.WellFormed(c) && S.TextValid(c) && S.Height(c) <= G.MAX_DEPTH && S.Render(c) == b
    ensures G.Supported(c) && G.DecodeEnvelope(b) == Ok(G.ValueOf(c))
  {
    hide G.Decode, S.Render, S.WellFormed, S.TextValid, S.Height, G.Supported, G.ValueOf;
    c := G.AcceptedIsRendering(b, 0);
    assert b[..|b|] == b;
  }

  /** Whatever the Go decoder accepts, the Rust decoder accepts with the same value, up to its
      reading of semantic tags. */
  lemma {:induction false} GoAcceptedIsRustAccepted(b: seq<byte>)
    requires G.DecodeEnvelope(b).Ok?
    ensures R.Decode(b).Ok? && Representable(GoData(G.DecodeEnvelope(b).value))
    ensures Strip(R.Decode(b).value) == Reported(GoData(G.DecodeEnvelope(b).value))
  {
    hide *;
    var c := GoTree(b);
    GoDataOf(c);
    DepthsAgree();
    EveryRenderingDecodesAlike(c);
  }

  lemma DepthsAgree()
    ensures G.MAX_DEPTH == R.MAX_DEPTH
  {
  }

  /** What the Rust decoder accepts has exactly one syntax tree, and the Go decoder accepts it
      too exactly when that tree has no indefinite length, no major type 7 and no integer
      below -2^63. */
  lemma {:induction false} RustAcceptedIsGoAccepted(b: seq<byte>) returns (c: S.Cst)
    requires R.Decode(b).Ok?
    ensures S.WellFormed(c) && S.Render(c) == b
    ensures forall d :: S.WellFormed(d) && S.Render(d) == b ==> d == c
    ensures G.DecodeEnvelope(b).Ok? <==> G.Supported(c)
  {
    hide G.Decode, S.Render, S.WellFormed, S.TextValid, S.Height, G.Supported, G.ValueOf, R.Value, R.Denoted;
    c := RustTree(b);
    forall d | S.WellFormed(d) && S.Render(d) == b ensures d == c {
      S.Unambiguous(c, d, b);
    }
    if G.Supported(c) {
      G.AcceptsRendering(c, b, 0);
    }
    if G.DecodeEnvelope(b).Ok? {
      var d := GoTree(b);
    }
  }
}
