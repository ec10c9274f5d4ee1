/** The converse: everything the Rust decoder accepts is a rendering of a syntax tree. */
module RustSoundness {
  import opened Bytes
  import opened RustCbor
  import Utf8
  import S = CborSyntax

  lemma HeadOfArgument(b: seq<byte>, off: nat)
    requires off < |b| && Argument(b, off + 1, b[off] % 32).Ok?
    ensures S.WidthOf(b[off] % 32).Some?
    ensures var w := S.WidthOf(b[off] % 32).value;
            var arg := Argument(b, off + 1, b[off] % 32).value;
            && arg.value < S.Limit(w) && arg.next == off + 1 + S.ArgBytes(w) <= |b|
            && S.Head(b[off] / 32, w, arg.value) == b[off..arg.next]
  {
    var w := S.WidthOf(b[off] % 32).value;
    var k := off + 1 + S.ArgBytes(w);
    S.HeadSpelled(b[off], b[off + 1..k], w);
    if w == S.One {
      assert FromBigEndian(b[off + 1..k][..0]) == 0;
    }
    assert b[off..k] == [b[off]] + b[off + 1..k];
  }

  lemma SliceJoin(b: seq<byte>, i: nat, j: nat, k: nat)
    requires i <= j <= k <= |b|
    ensures b[i..k] == b[i..j] + b[j..k]
  {
  }

  /** An accepted item is the rendering of a tree whose node is the result. */
  lemma {:induction false} AcceptedIsRendering(b: seq<byte>, off: nat, depth: nat) returns (c: S.Cst)
    requires off <= |b| && Value(b, off, depth).Ok?
    ensures S.WellFormed(c) && S.TextValid(c) && depth + S.Height(c) <= MAX_DEPTH
    ensures off + |S.Render(c)| <= |b| && S.Render(c) == b[off..off + |S.Render(c)|]
    ensures Value(b, off, depth) == Ok(Read(Node(c, off), off + |S.Render(c)|))
    decreases |b| - off, 2, 0
  {
    hide Content, S.Render, S.WellFormed, S.TextValid, S.Height, Denoted;
    if b[off] % 32 == 31 && b[off] / 32 in {2, 3, 4, 5} {
      c := IndefiniteIsRendering(b, off, depth);
    } else {
      c := DefiniteIsRendering(b, off, depth);
    }
  }

  lemma {:induction false} IndefiniteIsRendering(b: seq<byte>, off: nat, depth: nat) returns (c: S.Cst)
    requires off < |b| && b[off] % 32 == 31 && b[off] / 32 in {2, 3, 4, 5} && depth <= MAX_DEPTH
    requires Content(b, off + 1, b[off] / 32, 31, depth).Ok?
    ensures S.WellFormed(c) && S.TextValid(c) && depth + S.Height(c) <= MAX_DEPTH
    ensures off + |S.Render(c)| <= |b| && S.Render(c) == b[off..off + |S.Render(c)|]
    ensures Content(b, off + 1, b[off] / 32, 31, depth) == Ok(Read(Denoted(c, off), off + |S.Render(c)|))
    decreases |b| - off, 1, 0
  {
    hide Argument, Value, Counted, UntilBreak, Chunks, S.RenderAll, S.RenderChunks, S.AllWellFormed, S.AllTextValid,
      S.Levels, Nodes, PairUp, S.Joined;
    var major := b[off] / 32;
    if major <= 3 {
      var chunks := AcceptedChunks(b, off + 1, major);
      c := if major == 2 then S.BytesChunked(chunks) else S.TextChunked(chunks);
      SliceJoin(b, off, off + 1, off + |S.Render(c)|);
    } else {
      var items := AcceptedUntilBreak(b, off + 1, depth + 1);
      c := if major == 4 then S.ArrayUntilBreak(items) else S.MapUntilBreak(items);
      SliceJoin(b, off, off + 1, off + |S.Render(c)|);
    }
  }

  lemma {:induction false} DefiniteIsRendering(b: seq<byte>, off: nat, depth: nat) returns (c: S.Cst)
    requires off < |b| && depth <= MAX_DEPTH && (b[off] / 32 in {2, 3, 4, 5} ==> b[off] % 32 != 31)
    requires Content(b, off + 1, b[off] / 32, b[off] % 32, depth).Ok?
    ensures S.WellFormed(c) && S.TextValid(c) && depth + S.Height(c) <= MAX_DEPTH
    ensures off + |S.Render(c)| <= |b| && S.Render(c) == b[off..off + |S.Render(c)|]
    ensures Content(b, off + 1, b[off] / 32, b[off] % 32, depth) == Ok(Read(Denoted(c, off), off + |S.Render(c)|))
    decreases |b| - off, 1, 1
  {
    hide Content, S.Render, S.WellFormed, S.TextValid, S.Height, Denoted;
    var major := b[off] / 32;
    if major == 6 {
      c := AcceptedTag(b, off, depth);
    } else if 4 <= major <= 5 {
      c := AcceptedContainer(b, off, depth);
    } else if 2 <= major <= 3 {
      c := AcceptedString(b, off, depth);
    } else {
      c := AcceptedLeaf(b, off, depth);
    }
  }

  lemma {:induction false} AcceptedTag(b: seq<byte>, off: nat, depth: nat) returns (c: S.Cst)
    requires off < |b| && depth <= MAX_DEPTH && b[off] / 32 == 6
    requires Content(b, off + 1, b[off] / 32, b[off] % 32, depth).Ok?
    ensures S.WellFormed(c) && S.TextValid(c) && depth + S.Height(c) <= MAX_DEPTH
    ensures off + |S.Render(c)| <= |b| && S.Render(c) == b[off..off + |S.Render(c)|]
    ensures Content(b, off + 1, b[off] / 32, b[off] % 32, depth) == Ok(Read(Denoted(c, off), off + |S.Render(c)|))
    decreases |b| - off, 1, 0
  {
    hide Argument, Value, S.Head, SemanticTag, String, ArrayItems, MapItems, SimpleValue, S.RenderAll, S.RenderChunks;
    HeadOfArgument(b, off);
    var arg := Argument(b, off + 1, b[off] % 32).value;
    var content := AcceptedIsRendering(b, arg.next, depth + 1);
    c := S.Tagged(S.WidthOf(b[off] % 32).value, arg.value, content);
    SliceJoin(b, off, arg.next, arg.next + |S.Render(content)|);
  }

  lemma {:induction false} AcceptedContainer(b: seq<byte>, off: nat, depth: nat) returns (c: S.Cst)
    requires off < |b| && depth <= MAX_DEPTH && b[off] / 32 in {4, 5} && b[off] % 32 != 31
    requires Content(b, off + 1, b[off] / 32, b[off] % 32, depth).Ok?
    ensures S.WellFormed(c) && S.TextValid(c) && depth + S.Height(c) <= MAX_DEPTH
    ensures off + |S.Render(c)| <= |b| && S.Render(c) == b[off..off + |S.Render(c)|]
    ensures Content(b, off + 1, b[off] / 32, b[off] % 32, depth) == Ok(Read(Denoted(c, off), off + |S.Render(c)|))
    decreases |b| - off, 1, 0
  {
    hide Argument, Value, Counted, UntilBreak, S.Head, S.RenderAll, S.AllWellFormed, S.AllTextValid, S.Levels, Nodes,
      PairUp;
    HeadOfArgument(b, off);
    var w := S.WidthOf(b[off] % 32).value;
    var arg := Argument(b, off + 1, b[off] % 32).value;
    var count: nat := if b[off] / 32 == 4 then arg.value else 2 * (arg.value as int);
    var items := AcceptedCounted(b, arg.next, count, depth + 1);
    c := if b[off] / 32 == 4 then S.Array(w, items) else S.Map(w, items);
    SliceJoin(b, off, arg.next, arg.next + |S.RenderAll(items)|);
  }

  lemma AcceptedString(b: seq<byte>, off: nat, depth: nat) returns (c: S.Cst)
    requires off < |b| && b[off] / 32 in {2, 3} && b[off] % 32 != 31
    requires Content(b, off + 1, b[off] / 32, b[off] % 32, depth).Ok?
    ensures S.WellFormed(c) && S.TextValid(c) && S.Height(c) == 0
    ensures off + |S.Render(c)| <= |b| && S.Render(c) == b[off..off + |S.Render(c)|]
    ensures Content(b, off + 1, b[off] / 32, b[off] % 32, depth) == Ok(Read(Denoted(c, off), off + |S.Render(c)|))
  {
    hide Argument, Value, ArrayItems, MapItems, Chunks, SimpleValue, S.Head, S.RenderAll, S.RenderChunks, Nodes,
      Utf8.Valid, S.Levels, SemanticTag, PairUp;
    HeadOfArgument(b, off);
    var w := S.WidthOf(b[off] % 32).value;
    var arg := Argument(b, off + 1, b[off] % 32).value;
    var data := b[arg.next..arg.next + arg.value];
    c := if b[off] / 32 == 2 then S.Bytes(w, data) else S.Text(w, data);
    SliceJoin(b, off, arg.next, arg.next + arg.value);
  }

  lemma AcceptedLeaf(b: seq<byte>, off: nat, depth: nat) returns (c: S.Cst)
    requires off < |b| && b[off] / 32 in {0, 1, 7}
    requires Content(b, off + 1, b[off] / 32, b[off] % 32, depth).Ok?
    ensures S.WellFormed(c) && S.TextValid(c) && S.Height(c) == 0
    ensures off + |S.Render(c)| <= |b| && S.Render(c) == b[off..off + |S.Render(c)|]
    ensures Content(b, off + 1, b[off] / 32, b[off] % 32, depth) == Ok(Read(Denoted(c, off), off + |S.Render(c)|))
  {
    hide Argument, Value, ArrayItems, MapItems, String, S.Head;
    var major, low := b[off] / 32, b[off] % 32;
    if major == 7 && low == 24 {
      ByteIsArgument(b, off + 1);
    }
    if major == 7 && low < 24 {
      InlineArgument(b, off + 1, low);
    }
    HeadOfArgument(b, off);
    var w := S.WidthOf(low).value;
    var arg := Argument(b, off + 1, low).value;
    c := if major == 0 then S.Unsigned(w, arg.value)
         else if major == 1 then S.Negative(w, arg.value)
         else if low < 24 then S.Short(low)
         else if low == 24 then S.Simple(arg.value)
         else S.Float(w, arg.value);
  }

  lemma ByteIsArgument(b: seq<byte>, off: nat)
    requires off < |b|
    ensures Argument(b, off, 24) == Byte(b, off)
  {
  }

  lemma InlineArgument(b: seq<byte>, off: nat, low: nat)
    requires off <= |b| && low < 24
    ensures Argument(b, off, low) == Ok(Read(low, off))
  {
  }

  lemma {:induction false} AcceptedCounted(b: seq<byte>, off: nat, count: nat, depth: nat) returns (cs: seq<S.Cst>)
    requires off <= |b| && Counted(b, off, count, depth).Ok?
    ensures S.AllWellFormed(cs) && S.AllTextValid(cs) && |cs| == count
    ensures S.Levels(cs) > 0 ==> depth + S.Levels(cs) <= MAX_DEPTH + 1
    ensures off + |S.RenderAll(cs)| <= |b| && S.RenderAll(cs) == b[off..off + |S.RenderAll(cs)|]
    ensures Counted(b, off, count, depth) == Ok(Read(Nodes(cs, off), off + |S.RenderAll(cs)|))
    decreases |b| - off, 3, count
  {
    hide Value, S.Render, S.WellFormed, S.TextValid, S.Height, Node;
    if count == 0 {
      cs := [];
    } else {
      var first := AcceptedIsRendering(b, off, depth);
      var k := off + |S.Render(first)|;
      var rest := AcceptedCounted(b, k, count - 1, depth);
      cs := [first] + rest;
      assert cs[1..] == rest;
      SliceJoin(b, off, k, k + |S.RenderAll(rest)|);
    }
  }

  lemma {:induction false} AcceptedUntilBreak(b: seq<byte>, off: nat, depth: nat) returns (cs: seq<S.Cst>)
    requires off <= |b| && UntilBreak(b, off, depth).Ok?
    ensures S.AllWellFormed(cs) && S.AllTextValid(cs)
    ensures S.Levels(cs) > 0 ==> depth + S.Levels(cs) <= MAX_DEPTH + 1
    ensures off + |S.RenderAll(cs)| < |b| && S.RenderAll(cs) + [S.BREAK] == b[off..off + |S.RenderAll(cs)| + 1]
    ensures UntilBreak(b, off, depth) == Ok(Read(Nodes(cs, off), off + |S.RenderAll(cs)| + 1))
    decreases |b| - off, 3, 0
  {
    hide Value, S.Render, S.WellFormed, S.TextValid, S.Height, Node;
    if b[off] == S.BREAK {
      cs := [];
    } else {
      var first := AcceptedIsRendering(b, off, depth);
      var k := off + |S.Render(first)|;
      var rest := AcceptedUntilBreak(b, k, depth);
      cs := [first] + rest;
      assert cs[1..] == rest;
      SliceJoin(b, off, k, k + |S.RenderAll(rest)| + 1);
      assert S.RenderAll(cs) + [S.BREAK] == S.Render(first) + (S.RenderAll(rest) + [S.BREAK]);
    }
  }

  /** What reading chunks checked on the way. */
  lemma ChunkParts(b: seq<byte>, off: nat, major: nat)
    requires off <= |b| && Chunks(b, off, major).Ok?
    ensures off < |b|
    ensures b[off] == S.BREAK ==> Chunks(b, off, major) == Ok(Read([], off + 1))
    ensures b[off] != S.BREAK ==>
      && b[off] / 32 == major && b[off] % 32 != 31 && Argument(b, off + 1, b[off] % 32).Ok?
      && var arg := Argument(b, off + 1, b[off] % 32).value;
         && arg.next + arg.value <= |b|
         && (major == 3 ==> Utf8.Valid(b[arg.next..arg.next + arg.value]))
         && Chunks(b, arg.next + arg.value, major).Ok?
  {
    hide Argument, Utf8.Valid;
  }

  lemma {:induction false} AcceptedChunks(b: seq<byte>, off: nat, major: nat) returns (chunks: seq<S.Chunk>)
    requires off <= |b| && major in {2, 3} && Chunks(b, off, major).Ok?
    ensures S.ChunksFit(chunks) && (major == 3 ==> S.ChunksValid(chunks))
    ensures off + |S.RenderChunks(major, chunks)| < |b|
    ensures S.RenderChunks(major, chunks) + [S.BREAK] == b[off..off + |S.RenderChunks(major, chunks)| + 1]
    ensures Chunks(b, off, major) == Ok(Read(S.Joined(chunks), off + |S.RenderChunks(major, chunks)| + 1))
    decreases |b| - off
  {
    hide Argument, S.Head, Utf8.Valid, Chunks;
    ChunkParts(b, off, major);
    if b[off] == S.BREAK {
      chunks := [];
    } else {
      HeadOfArgument(b, off);
      var arg := Argument(b, off + 1, b[off] % 32).value;
      var k := arg.next + arg.value;
      var first := S.Chunk(S.WidthOf(b[off] % 32).value, b[arg.next..k]);
      var rest := AcceptedChunks(b, k, major);
      OneChunk(b, off, major, first, arg.next);
      chunks := [first] + rest;
      assert chunks[1..] == rest;
      var tail := S.RenderChunks(major, rest) + [S.BREAK];
      SliceJoin(b, off, arg.next, k);
      SliceJoin(b, off, k, k + |tail|);
      assert S.RenderChunks(major, chunks) + [S.BREAK] == S.Head(major, first.w, arg.value) + first.data + tail;
    }
  }
}
