/** What the Rust decoder reports for input that ends too early, or goes on too long: which error, and at
    which byte. */
module RustCuts {
  import opened Bytes
  import Utf8
  import S = CborSyntax
  import opened RustCbor

  // ---- which error ---------------------------------------------------------------------------------------

  /** A length `n`, declared for the bytes from `at` on, that the input does not have. */
  function Overrun(at: nat, n: nat): CborError {
    CborError(at, if at + n >= 0x1_0000_0000_0000_0000 then LengthOverflowsOffset else LengthTooLarge)
  }

  /** The argument of this width, from `at` on, is not all there. */
  function ArgumentCut(w: S.Width, at: nat, end: nat): CborError {
    if w == S.One then CborError(end, Truncated) else Overrun(at, S.ArgBytes(w))
  }

  /** The error for the item `c` at `off` in input that ends at `end`, inside the item. A missing first byte
      is noticed where it is missing, a missing argument or string where it should start, and a count that
      cannot be met right behind it. */
  function CutError(c: S.Cst, off: nat, end: nat): (e: CborError)
    requires off <= end
    ensures off <= e.offset <= end
    decreases c, 1
  {
    if end == off then CborError(off, Truncated)
    else
      match c
      case BytesChunked(chunks) => CutChunks(chunks, off + 1, end)
      case TextChunked(chunks) => CutChunks(chunks, off + 1, end)
      case ArrayUntilBreak(items) => CutUntilBreak(items, off + 1, end)
      case MapUntilBreak(items) => CutUntilBreak(items, off + 1, end)
      case _ =>
        var (w, n) := S.Opening(c);
        var body := off + 1 + S.ArgBytes(w);
        if end < body then ArgumentCut(w, off + 1, end) else CutBody(c, body, end)
  }

  function CutBody(c: S.Cst, body: nat, end: nat): (e: CborError)
    requires body <= end
    ensures body <= e.offset <= end
    decreases c, 0
  {
    match c
    case Bytes(_, data) => Overrun(body, |data|)
    case Text(_, data) => Overrun(body, |data|)
    case Array(_, items) => if |items| > end - body then CborError(body, ArrayTooLong) else CutItems(items, body, end)
    case Map(_, items) => if |items| > end - body then CborError(body, MapTooLong) else CutItems(items, body, end)
    case Tagged(_, _, content) => CutError(content, body, end)
    case _ => CborError(end, Truncated)
  }

  function CutItems(cs: seq<S.Cst>, off: nat, end: nat): (e: CborError)
    requires off <= end
    ensures off <= e.offset <= end
    decreases cs, 0
  {
    if cs == [] then CborError(end, Truncated)
    else
      var next := off + |S.Render(cs[0])|;
      if end < next then CutError(cs[0], off, end) else CutItems(cs[1..], next, end)
  }

  function CutUntilBreak(cs: seq<S.Cst>, off: nat, end: nat): (e: CborError)
    requires off <= end
    ensures off <= e.offset <= end
    decreases cs, 0
  {
    if end == off || cs == [] then CborError(end, TruncatedIndefinite)
    else
      var next := off + |S.Render(cs[0])|;
      if end < next then CutError(cs[0], off, end) else CutUntilBreak(cs[1..], next, end)
  }

  function CutChunks(chunks: seq<S.Chunk>, off: nat, end: nat): (e: CborError)
    requires off <= end
    ensures off <= e.offset <= end
    decreases |chunks|
  {
    if end == off || chunks == [] then CborError(end, TruncatedIndefinite)
    else
      var body := off + 1 + S.ArgBytes(chunks[0].w);
      if end < body then ArgumentCut(chunks[0].w, off + 1, end)
      else if end < body + |chunks[0].data| then Overrun(body, |chunks[0].data|)
      else CutChunks(chunks[1..], body + |chunks[0].data|, end)
  }

  // ---- heads ---------------------------------------------------------------------------------------------

  /** Cut in its first part, or whole in its first part and cut in the second. */
  lemma CutParts(s: seq<byte>, t: seq<byte>, x: seq<byte>)
    requires x < s + t
    ensures |x| < |s| ==> x < s
    ensures |x| >= |s| ==> s <= x && x[|s|..] < t
  {
    if |x| < |s| {
      assert x == (s + t)[..|x|] == s[..|x|];
    } else {
      assert x[..|s|] == (s + t)[..|x|][..|s|] == s;
      assert x[|s|..] == (s + t)[..|x|][|s|..] == t[..|x| - |s|];
    }
  }

  lemma {:induction false} HeadCut(major: nat, w: S.Width, n: nat, b: seq<byte>, off: nat)
    requires major < 8 && n < S.Limit(w) && off < |b| && b[off..] < S.Head(major, w, n)
    ensures w != S.Inline && b[off] / 32 == major && S.WidthOf(b[off] % 32) == Some(w) && b[off] % 32 < 28
    ensures Argument(b, off + 1, b[off] % 32) == Err(ArgumentCut(w, off + 1, |b|))
  {
    hide S.Head, FromBigEndian;
    S.HeadFields(major, w, n);
    assert b[off] == b[off..][0] == S.Head(major, w, n)[0];
  }

  /** A definite item's own first error, once its head is cut. */
  lemma {:induction false} OpeningCut(c: S.Cst, b: seq<byte>, off: nat, depth: nat)
    requires S.WellFormed(c) && !S.Indefinite(c) && off < |b|
    requires b[off..] < S.Head(S.Major(c), S.Opening(c).0, S.Opening(c).1)
    ensures Content(b, off + 1, b[off] / 32, b[off] % 32, depth) == Err(ArgumentCut(S.Opening(c).0, off + 1, |b|))
  {
    hide Argument, S.Head, Value, Counted, UntilBreak, Chunks, Take;
    var (w, n) := S.Opening(c);
    S.RenderParts(c);
    HeadCut(S.Major(c), w, n, b, off);
    if c.Simple? {
      ByteMissing(b, off + 1);
    }
  }

  lemma ByteMissing(b: seq<byte>, off: nat)
    requires off <= |b|
    ensures Argument(b, off, 24).Err? ==> Byte(b, off) == Err(Argument(b, off, 24).error)
  {
  }

  // ---- items ---------------------------------------------------------------------------------------------

  lemma {:induction false} CutFails(c: S.Cst, b: seq<byte>, off: nat, depth: nat)
    requires S.WellFormed(c) && S.TextValid(c) && depth + S.Height(c) <= MAX_DEPTH
    requires off <= |b| && b[off..] < S.Render(c)
    ensures Value(b, off, depth) == Err(CutError(c, off, |b|))
    decreases c, 3
  {
    hide Content, S.Render, S.WellFormed, S.TextValid, S.Height, CutError;
    if off == |b| {
      NothingThere(c, off);
    } else {
      S.StartsWith(c);
      assert b[off] == b[off..][0] == S.Render(c)[0];
      if S.Indefinite(c) {
        CutIndefinite(c, b, off, depth);
      } else {
        CutDefinite(c, b, off, depth);
      }
    }
  }

  lemma NothingThere(c: S.Cst, off: nat)
    ensures CutError(c, off, off) == CborError(off, Truncated)
  {
  }

  lemma {:induction false} CutIndefinite(c: S.Cst, b: seq<byte>, off: nat, depth: nat)
    requires S.WellFormed(c) && S.TextValid(c) && depth + S.Height(c) <= MAX_DEPTH && S.Indefinite(c)
    requires off < |b| && b[off..] < S.Render(c)
    ensures Content(b, off + 1, S.Major(c), 31, depth) == Err(CutError(c, off, |b|))
    decreases c, 2
  {
    hide Argument, Value, Counted, UntilBreak, Chunks, S.RenderAll, S.RenderChunks, S.AllWellFormed, S.AllTextValid,
      S.Levels, CutChunks, CutUntilBreak;
    S.RenderParts(c);
    CutParts([(32 * S.Major(c) + 31) as byte], S.Body(c), b[off..]);
    assert b[off..][1..] == b[off + 1..];
    match c {
      case BytesChunked(chunks) => ChunksCut(2, chunks, b, off + 1);
      case TextChunked(chunks) => ChunksCut(3, chunks, b, off + 1);
      case ArrayUntilBreak(items) => UntilBreakCut(items, b, off + 1, depth + 1);
      case MapUntilBreak(items) => UntilBreakCut(items, b, off + 1, depth + 1);
    }
  }

  lemma {:induction false} CutDefinite(c: S.Cst, b: seq<byte>, off: nat, depth: nat)
    requires S.WellFormed(c) && S.TextValid(c) && depth + S.Height(c) <= MAX_DEPTH && !S.Indefinite(c)
    requires off < |b| && b[off..] < S.Render(c)
    ensures Content(b, off + 1, b[off] / 32, b[off] % 32, depth) == Err(CutError(c, off, |b|))
    decreases c, 2
  {
    hide Content, S.Render, S.WellFormed, S.TextValid, S.Height, S.Head, S.Body, ArgumentCut, CutBody, S.Opening;
    var (w, n) := S.Opening(c);
    var head := S.Head(S.Major(c), w, n);
    S.RenderParts(c);
    CutParts(head, S.Body(c), b[off..]);
    if |b| - off < |head| {
      OpeningCut(c, b, off, depth);
    } else {
      assert b[off..][|head|..] == b[off + |head|..];
      BodyCut(c, b, off, depth);
    }
  }

  lemma {:induction false} BodyCut(c: S.Cst, b: seq<byte>, off: nat, depth: nat)
    requires S.WellFormed(c) && S.TextValid(c) && depth + S.Height(c) <= MAX_DEPTH && !S.Indefinite(c) && off < |b|
    requires S.Head(S.Major(c), S.Opening(c).0, S.Opening(c).1) <= b[off..]
    requires S.Opening(c).1 < S.Limit(S.Opening(c).0)
    requires var body := off + 1 + S.ArgBytes(S.Opening(c).0); body <= |b| && b[body..] < S.Body(c)
    ensures var body := off + 1 + S.ArgBytes(S.Opening(c).0);
            Content(b, off + 1, b[off] / 32, b[off] % 32, depth) == Err(CutBody(c, body, |b|))
    decreases c, 1
  {
    hide S.Head, Argument, Value, Counted, UntilBreak, Chunks, S.RenderAll, S.AllWellFormed, S.AllTextValid, S.Levels,
      CutItems, CutError, S.Render;
    var (w, n) := S.Opening(c);
    var body := off + 1 + S.ArgBytes(w);
    ArgumentOfHead(S.Major(c), w, n, b, off);
    match c {
      case Array(_, items) =>
        if |items| <= |b| - body {
          ItemsCut(items, b, body, depth + 1);
        }
      case Map(_, items) =>
        if |items| <= |b| - body {
          ItemsCut(items, b, body, depth + 1);
        }
      case Tagged(_, _, content) => CutFails(content, b, body, depth + 1);
      case _ =>
    }
  }

  lemma {:induction false} ItemsCut(cs: seq<S.Cst>, b: seq<byte>, off: nat, depth: nat)
    requires S.AllWellFormed(cs) && S.AllTextValid(cs) && depth + S.Levels(cs) <= MAX_DEPTH + 1
    requires off <= |b| && b[off..] < S.RenderAll(cs)
    ensures Counted(b, off, |cs|, depth) == Err(CutItems(cs, off, |b|))
    decreases cs, 4
  {
    hide Value, S.Render, S.WellFormed, S.TextValid, S.Height, Node, CutError;
    var first := S.Render(cs[0]);
    CutParts(first, S.RenderAll(cs[1..]), b[off..]);
    if |b| - off < |first| {
      CutFails(cs[0], b, off, depth);
    } else {
      assert b[off..][|first|..] == b[off + |first|..];
      AcceptsRendering(cs[0], b, off, depth);
      ItemsCut(cs[1..], b, off + |first|, depth);
    }
  }

  lemma {:induction false} UntilBreakCut(cs: seq<S.Cst>, b: seq<byte>, off: nat, depth: nat)
    requires S.AllWellFormed(cs) && S.AllTextValid(cs) && depth + S.Levels(cs) <= MAX_DEPTH + 1
    requires off <= |b| && b[off..] < S.RenderAll(cs) + [S.BREAK]
    ensures UntilBreak(b, off, depth) == Err(CutUntilBreak(cs, off, |b|))
    decreases cs, 4
  {
    hide Value, S.Render, S.WellFormed, S.TextValid, S.Height, Node, CutError;
    if off < |b| {
      var first, rest := S.Render(cs[0]), S.RenderAll(cs[1..]) + [S.BREAK];
      assert S.RenderAll(cs) + [S.BREAK] == first + rest;
      S.StartsWith(cs[0]);
      CutParts(first, rest, b[off..]);
      assert b[off] == b[off..][0] == first[0];
      if |b| - off < |first| {
        CutFails(cs[0], b, off, depth);
      } else {
        assert b[off..][|first|..] == b[off + |first|..];
        AcceptsRendering(cs[0], b, off, depth);
        UntilBreakCut(cs[1..], b, off + |first|, depth);
      }
    }
  }

  lemma {:induction false} ChunksCut(major: nat, chunks: seq<S.Chunk>, b: seq<byte>, off: nat)
    requires major in {2, 3} && S.ChunksFit(chunks) && (major == 3 ==> S.ChunksValid(chunks))
    requires off <= |b| && b[off..] < S.RenderChunks(major, chunks) + [S.BREAK]
    ensures Chunks(b, off, major) == Err(CutChunks(chunks, off, |b|))
    decreases |chunks|
  {
    hide Argument, S.Head, Utf8.Valid, ArgumentCut, Take, Chunks;
    if off == |b| {
      ChunkMissing(b, off, major);
    } else {
      var first := chunks[0];
      var head, rest := S.Head(major, first.w, |first.data|), S.RenderChunks(major, chunks[1..]) + [S.BREAK];
      assert S.RenderChunks(major, chunks) + [S.BREAK] == head + (first.data + rest);
      CutParts(head, first.data + rest, b[off..]);
      if |b| - off < |head| {
        HeadCut(major, first.w, |first.data|, b, off);
        OneChunkCut(b, off, major);
      } else {
        var k := off + |head|;
        ArgumentOfHead(major, first.w, |first.data|, b, off);
        assert b[off..][|head|..] == b[k..];
        CutParts(first.data, rest, b[k..]);
        if |b| - k < |first.data| {
          DataMissing(b, k, |first.data|);
          OneChunkCut(b, off, major);
        } else {
          assert b[k..][|first.data|..] == b[k + |first.data|..];
          assert b[k..k + |first.data|] == first.data;
          ChunksCut(major, chunks[1..], b, k + |first.data|);
          OneChunk(b, off, major, first, k);
        }
      }
    }
  }

  lemma ChunkMissing(b: seq<byte>, off: nat, major: nat)
    requires off == |b|
    ensures Chunks(b, off, major) == Err(CborError(off, TruncatedIndefinite))
  {
  }

  /** What is wrong with a chunk is wrong with the string. */
  lemma OneChunkCut(b: seq<byte>, off: nat, major: nat)
    requires off < |b| && major in {2, 3} && b[off] / 32 == major && b[off] % 32 < 28
    ensures match Argument(b, off + 1, b[off] % 32)
            case Err(e) => Chunks(b, off, major) == Err(e)
            case Ok(length) =>
              var data := Take(b, length.next, length.value); data.Err? ==> Chunks(b, off, major) == Err(data.error)
  {
    hide Argument, Utf8.Valid, Take;
    assert b[off] != S.BREAK;
  }

  lemma DataMissing(b: seq<byte>, off: nat, n: nat)
    requires off <= |b| < off + n
    ensures Take(b, off, n) == Err(Overrun(off, n))
  {
  }

  // ---- main results --------------------------------------------------------------------------------------

  /** Input that ends inside an item is refused, with the error for the place where it ends; that error
      points to the end of the input or to a place before it. */
  lemma {:induction false} CutInputFails(c: S.Cst, k: nat)
    requires S.WellFormed(c) && S.TextValid(c) && S.Height(c) <= MAX_DEPTH && k < |S.Render(c)|
    ensures Decode(S.Render(c)[..k]) == Err(CutError(c, 0, k))
  {
    hide S.Render, S.WellFormed, S.TextValid, S.Height, CutError, Value;
    var b := S.Render(c)[..k];
    assert b[0..] == b && b < S.Render(c);
    CutFails(c, b, 0, 0);
  }

  /** Bytes behind the item are refused where they start. */
  lemma {:induction false} TrailingInputFails(c: S.Cst, more: seq<byte>)
    requires S.WellFormed(c) && S.TextValid(c) && S.Height(c) <= MAX_DEPTH && more != []
    ensures Decode(S.Render(c) + more) == Err(CborError(|S.Render(c)|, TrailingBytes))
  {
    hide S.Render, S.WellFormed, S.TextValid, S.Height, Value, Node;
    var b := S.Render(c) + more;
    assert b[0..] == b;
    AcceptsRendering(c, b, 0, 0);
  }
}
