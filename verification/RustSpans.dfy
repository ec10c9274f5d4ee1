/** Byte spans of the Rust decoder: they nest, siblings touch, and every retained node can be
    decoded again from just the bytes of its span. */
module RustSpans {
  import opened Bytes
  import opened RustCbor
  import CborAgreement
  import S = CborSyntax

  /** The nodes kept directly below a node, in input order. */
  function Children(s: Spanned): seq<Spanned> {
    match s.value
    case Array(items) => items
    case Map(entries) => Flat(entries)
    case Tag(_, inner) => [inner]
    case Timestamp(_, inner) => [inner]
    case _ => []
  }

  function Flat(es: seq<SpannedEntry>): seq<Spanned> {
    if es == [] then [] else [es[0].key, es[0].val] + Flat(es[1..])
  }

  /** The node reached from `s` by child indices. */
  function NodeAt(s: Spanned, path: seq<nat>): Option<Spanned>
    decreases |path|
  {
    if path == [] then Some(s)
    else if path[0] < |Children(s)| then NodeAt(Children(s)[path[0]], path[1..])
    else None
  }

  /** Children lie in order inside their parent, touch each other, and only an initial head
      before them and one break byte after them are left over. */
  predicate SpansFit(s: Spanned) {
    var cs := Children(s);
    && s.offset < s.end
    && (forall i :: 0 <= i < |cs| ==> cs[i].offset < cs[i].end)
    && (forall i :: 0 <= i < |cs| - 1 ==> cs[i].end == cs[i + 1].offset)
    && (cs != [] ==> s.offset < cs[0].offset && cs[|cs| - 1].end <= s.end <= cs[|cs| - 1].end + 1)
  }

  /** A node moved `k` bytes further into the input. */
  function Shift(s: Spanned, k: nat): Spanned {
    Spanned(s.offset + k, s.end + k, ShiftValue(s.value, k))
  }

  function ShiftValue(d: Diagnostic, k: nat): Diagnostic {
    match d
    case Array(items) => Array(ShiftAll(items, k))
    case Map(entries) => Map(ShiftEntries(entries, k))
    case Tag(tag, inner) => Tag(tag, Shift(inner, k))
    case Timestamp(tag, inner) => Timestamp(tag, Shift(inner, k))
    case _ => d
  }

  function ShiftAll(items: seq<Spanned>, k: nat): (r: seq<Spanned>)
    ensures |r| == |items|
  {
    if items == [] then [] else [Shift(items[0], k)] + ShiftAll(items[1..], k)
  }

  function ShiftEntry(e: SpannedEntry, k: nat): SpannedEntry {
    SpannedEntry(Shift(e.key, k), Shift(e.val, k))
  }

  function ShiftEntries(es: seq<SpannedEntry>, k: nat): seq<SpannedEntry> {
    if es == [] then [] else [ShiftEntry(es[0], k)] + ShiftEntries(es[1..], k)
  }

  lemma {:induction false} NodeShift(c: S.Cst, off: nat, k: nat)
    requires S.WellFormed(c)
    ensures Node(c, off + k) == Shift(Node(c, off), k)
    decreases c, 0
  {
    hide SemanticTag, PairUp, ShiftEntries, ShiftAll, Nodes, S.AllWellFormed, S.RenderAll, S.RenderChunks, S.Head,
      S.Joined;
    match c {
      case Array(w, items) => NodesShift(items, off + 1 + S.ArgBytes(w), k);
      case ArrayUntilBreak(items) => NodesShift(items, off + 1, k);
      case Map(w, items) => NodesShift(items, off + 1 + S.ArgBytes(w), k);
      case MapUntilBreak(items) => NodesShift(items, off + 1, k);
      case Tagged(w, num, content) =>
        NodeShift(content, off + 1 + S.ArgBytes(w), k);
        ShiftSemanticTag(num, Node(content, off + 1 + S.ArgBytes(w)), k);
      case _ =>
    }
  }

  lemma {:induction false} NodesShift(cs: seq<S.Cst>, off: nat, k: nat)
    requires S.AllWellFormed(cs)
    ensures Nodes(cs, off + k) == ShiftAll(Nodes(cs, off), k)
    ensures PairUp(Nodes(cs, off + k)) == ShiftEntries(PairUp(Nodes(cs, off)), k)
    decreases cs, 1
  {
    hide Node, S.WellFormed, Shift, S.Render, PairUp, ShiftEntries;
    if cs != [] {
      NodeShift(cs[0], off, k);
      NodesShift(cs[1..], off + |S.Render(cs[0])|, k);
    }
    ShiftPairs(Nodes(cs, off), k);
  }

  lemma {:induction false} ShiftPairs(items: seq<Spanned>, k: nat)
    ensures PairUp(ShiftAll(items, k)) == ShiftEntries(PairUp(items), k)
    decreases |items|
  {
    hide Shift;
    if |items| >= 2 {
      ShiftPairs(items[2..], k);
      assert ShiftAll(items, k)[2..] == ShiftAll(items[1..][1..], k);
    }
  }

  lemma ShiftSemanticTag(tag: u64, inner: Spanned, k: nat)
    ensures ShiftValue(SemanticTag(tag, inner), k) == SemanticTag(tag, Shift(inner, k))
  {
    if inner.value.Array? && |inner.value.items| == 2 {
      var items := inner.value.items;
      assert ShiftAll(items, k) == [Shift(items[0], k)] + ShiftAll(items[1..], k);
      assert ShiftAll(items[1..], k) == [Shift(items[1], k)] + ShiftAll(items[1..][1..], k);
    }
  }

  // ---- children of a node are nodes of subtrees --------------------------------------------------

  lemma {:induction false} FlatPairs(items: seq<Spanned>)
    requires |items| % 2 == 0
    ensures Flat(PairUp(items)) == items
    decreases |items|
  {
    if items != [] {
      FlatPairs(items[2..]);
      assert PairUp(items)[1..] == PairUp(items[2..]);
    }
  }

  /** How many bytes the first `i` trees of a row take. */
  function Before(cs: seq<S.Cst>, i: nat): nat
    requires i <= |cs|
  {
    if i == 0 then 0 else |S.Render(cs[0])| + Before(cs[1..], i - 1)
  }

  lemma {:induction false} PartAt(cs: seq<S.Cst>, off: nat, i: nat)
    requires S.AllWellFormed(cs) && S.AllTextValid(cs) && i < |cs|
    ensures S.WellFormed(cs[i]) && S.TextValid(cs[i]) && 1 + S.Height(cs[i]) <= S.Levels(cs)
    ensures Nodes(cs, off)[i] == Node(cs[i], off + Before(cs, i))
    ensures Before(cs, i + 1) == Before(cs, i) + |S.Render(cs[i])| <= |S.RenderAll(cs)|
    ensures S.RenderAll(cs)[Before(cs, i)..Before(cs, i + 1)] == S.Render(cs[i])
    decreases i
  {
    hide S.WellFormed, S.TextValid, S.Height, S.Render, Node;
    if i > 0 {
      PartAt(cs[1..], off + |S.Render(cs[0])|, i - 1);
      assert S.RenderAll(cs)[|S.Render(cs[0])|..] == S.RenderAll(cs[1..]);
    }
  }

  lemma {:induction false} BeforeAll(cs: seq<S.Cst>)
    ensures Before(cs, |cs|) == |S.RenderAll(cs)|
    decreases |cs|
  {
    hide S.Render;
    if cs != [] {
      BeforeAll(cs[1..]);
    }
  }

  /** The syntax trees below a tree, and where their rendering begins and ends. */
  function Parts(c: S.Cst): seq<S.Cst> {
    match c
    case Array(_, items) => items
    case ArrayUntilBreak(items) => items
    case Map(_, items) => items
    case MapUntilBreak(items) => items
    case Tagged(_, _, content) => [content]
    case _ => []
  }

  function PartsStart(c: S.Cst): nat
    requires S.WellFormed(c)
  {
    if S.Indefinite(c) then 1 else 1 + S.ArgBytes(S.Opening(c).0)
  }

  lemma ChildrenOfNode(c: S.Cst, off: nat)
    requires S.WellFormed(c) && S.TextValid(c)
    ensures S.AllWellFormed(Parts(c)) && S.AllTextValid(Parts(c)) && S.Levels(Parts(c)) == S.Height(c)
    ensures Children(Node(c, off)) == [] || Children(Node(c, off)) == Nodes(Parts(c), off + PartsStart(c))
    ensures Parts(c) != [] ==>
      && var k := PartsStart(c) + |S.RenderAll(Parts(c))|;
         k <= |S.Render(c)| <= k + 1 && S.Render(c)[PartsStart(c)..k] == S.RenderAll(Parts(c))
  {
    hide S.Head, S.RenderAll, S.AllWellFormed, S.AllTextValid, S.Levels, Nodes, Flat, PairUp, SemanticTag;
    match c {
      case Array(w, items) => ContainerParts(c);
      case ArrayUntilBreak(items) => ContainerParts(c);
      case Map(w, items) =>
        ContainerParts(c);
        FlatPairs(Nodes(items, off + PartsStart(c)));
      case MapUntilBreak(items) =>
        ContainerParts(c);
        FlatPairs(Nodes(items, off + PartsStart(c)));
      case Tagged(_, _, content) => TagParts(c, off);
      case _ => NoParts();
    }
  }

  lemma NoParts()
    ensures S.AllWellFormed([]) && S.AllTextValid([]) && S.Levels([]) == 0
  {
  }

  lemma ContainerParts(c: S.Cst)
    requires S.WellFormed(c) && (c.Array? || c.ArrayUntilBreak? || c.Map? || c.MapUntilBreak?)
    ensures var k := PartsStart(c) + |S.RenderAll(Parts(c))|;
            k <= |S.Render(c)| <= k + 1 && S.Render(c)[PartsStart(c)..k] == S.RenderAll(Parts(c))
  {
    hide S.Head, S.RenderAll, S.AllWellFormed;
    S.RenderParts(c);
  }

  lemma TagParts(c: S.Cst, off: nat)
    requires S.WellFormed(c) && S.TextValid(c) && c.Tagged?
    ensures S.AllWellFormed(Parts(c)) && S.AllTextValid(Parts(c)) && S.Levels(Parts(c)) == S.Height(c)
    ensures S.RenderAll(Parts(c)) == S.Render(c.content)
    ensures S.Render(c) == S.Head(6, c.w, c.num) + S.RenderAll(Parts(c))
    ensures Children(Node(c, off)) == [] || Children(Node(c, off)) == Nodes(Parts(c), off + PartsStart(c))
  {
    hide S.Head, Flat;
    assert Parts(c)[1..] == [];
  }

  /** Spans inside one node fit, whatever node it is. */
  lemma SpansOfNode(c: S.Cst, off: nat)
    requires S.WellFormed(c) && S.TextValid(c)
    ensures SpansFit(Node(c, off))
  {
    hide S.WellFormed, S.TextValid, S.Height, S.Render, S.RenderAll, S.AllWellFormed, S.AllTextValid, S.Levels, Denoted,
      Nodes, Children, PartsStart, Before;
    ChildrenOfNode(c, off);
    var cs, parts, start := Children(Node(c, off)), Parts(c), off + PartsStart(c);
    if cs != [] {
      forall i | 0 <= i < |parts|
        ensures cs[i].offset == start + Before(parts, i) && cs[i].end == start + Before(parts, i + 1)
        ensures cs[i].offset < cs[i].end
      {
        PartAt(parts, start, i);
      }
      BeforeAll(parts);
      FirstPart(c);
      assert |cs| == |parts|;
      assert cs[0].offset == start;
      assert cs[|cs| - 1].end == start + |S.RenderAll(parts)|;
    }
  }

  lemma FirstPart(c: S.Cst)
    requires S.WellFormed(c)
    ensures PartsStart(c) > 0 && Before(Parts(c), 0) == 0
  {
  }

  /** A node reached by a path is the node of a tree whose rendering is its span. */
  lemma {:induction false} ReachedNode(c: S.Cst, off: nat, path: seq<nat>, b: seq<byte>) returns (d: S.Cst)
    requires S.WellFormed(c) && S.TextValid(c) && off <= |b| && S.Render(c) <= b[off..]
    requires NodeAt(Node(c, off), path).Some?
    ensures S.WellFormed(d) && S.TextValid(d) && S.Height(d) <= S.Height(c)
    ensures var node := NodeAt(Node(c, off), path).value;
            node == Node(d, node.offset) && node.offset <= node.end <= |b| && b[node.offset..node.end] == S.Render(d)
    decreases |path|
  {
    hide S.WellFormed, S.TextValid, S.Height, S.Render, S.RenderAll, S.AllWellFormed, S.AllTextValid, S.Levels, Denoted,
      Nodes, Children, PartsStart, Before;
    if path == [] {
      d := c;
      assert b[off..off + |S.Render(c)|] == b[off..][..|S.Render(c)|];
    } else {
      ChildrenOfNode(c, off);
      var parts, i := Parts(c), path[0];
      PartAt(parts, off + PartsStart(c), i);
      PartInside(c, i, b[off..]);
      var k := off + PartsStart(c) + Before(parts, i);
      assert b[off..][k - off..] == b[k..];
      d := ReachedNode(parts[i], k, path[1..], b);
    }
  }

  /** The bytes of part `i` stand where `Before` says. */
  lemma PartInside(c: S.Cst, i: nat, b: seq<byte>)
    requires S.WellFormed(c) && S.TextValid(c) && S.Render(c) <= b && i < |Parts(c)|
    ensures PartsStart(c) + Before(Parts(c), i) <= |b|
    ensures S.Render(Parts(c)[i]) <= b[PartsStart(c) + Before(Parts(c), i)..]
  {
    hide S.WellFormed, S.TextValid, S.Height, S.Render, S.RenderAll, S.AllWellFormed, S.AllTextValid, S.Levels, Denoted,
      Nodes, Children, PartsStart, Before;
    ChildrenOfNode(c, 0);
    var parts, p := Parts(c), PartsStart(c);
    PartAt(parts, 0, i);
    var all := S.RenderAll(parts);
    var lo, hi := Before(parts, i), Before(parts, i + 1);
    SliceOfSlice(S.Render(c), p, p + |all|, lo, hi);
    SliceOfPrefix(S.Render(c), b, p + lo, p + hi);
  }

  lemma SliceOfSlice(s: seq<byte>, i: nat, j: nat, lo: nat, hi: nat)
    requires i <= j <= |s| && lo <= hi <= j - i
    ensures s[i..j][lo..hi] == s[i + lo..i + hi]
  {
    assert forall k :: 0 <= k < hi - lo ==> s[i..j][lo..hi][k] == s[i + lo + k];
  }

  lemma SliceOfPrefix(s: seq<byte>, b: seq<byte>, i: nat, j: nat)
    requires s <= b && i <= j <= |s|
    ensures s[i..j] <= b[i..]
  {
  }

  /** For any accepted input: the root spans all of it; every retained node's span fits its
      children; and decoding the bytes of that span alone gives the node, moved to offset 0. */
  lemma {:induction false} SpansAreFaithful(b: seq<byte>, path: seq<nat>)
    requires Decode(b).Ok? && NodeAt(Decode(b).value, path).Some?
    ensures Decode(b).value.offset == 0 && Decode(b).value.end == |b|
    ensures var node := NodeAt(Decode(b).value, path).value;
            && SpansFit(node) && node.end <= |b|
            && var alone := Decode(b[node.offset..node.end]);
               alone.Ok? && Shift(alone.value, node.offset) == node
  {
    hide Decode, S.WellFormed, S.TextValid, S.Height, S.Render, Denoted, NodeAt, SpansFit, Shift;
    var c := CborAgreement.RustTree(b);
    assert b[0..] == b;
    var d := ReachedNode(c, 0, path, b);
    var node := NodeAt(Decode(b).value, path).value;
    SpansOfNode(d, node.offset);
    CborAgreement.DecodesRendering(d);
    NodeShift(d, 0, node.offset);
    assert 0 + node.offset == node.offset;
    SpanOrder(node);
  }

  lemma SpanOrder(s: Spanned)
    requires SpansFit(s)
    ensures s.offset < s.end
  {
  }
}
