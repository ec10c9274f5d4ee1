/** Round trips, injectivity and shortest form for the Go codec. */
module GoRoundTrip {
  import opened Basics
  import opened Bytes
  import opened GoCbor
  import Utf8
  import S = CborSyntax

  /** What decoding makes of a value: a non-negative `cInt` is read back as a `cUint`. */
  function Normal(v: Value): Value {
    match v
    case CInt(i) => if i >= 0 then CUint(i) else v
    case CArray(items) => CArray(NormalAll(items))
    case CMap(entries) => CMap(NormalEntries(entries))
    case CTag(num, content) => CTag(num, Normal(content))
    case _ => v
  }

  function NormalAll(vs: seq<Value>): (r: seq<Value>)
    ensures |r| == |vs|
  {
    if vs == [] then [] else [Normal(vs[0])] + NormalAll(vs[1..])
  }

  function NormalEntry(e: Entry): Entry {
    Entry(Normal(e.key), Normal(e.val))
  }

  function NormalEntries(es: seq<Entry>): (r: seq<Entry>)
    ensures |r| == |es|
  {
    if es == [] then [] else [NormalEntry(es[0])] + NormalEntries(es[1..])
  }

  /** Valid text everywhere and at most `levels` levels of nesting. */
  predicate Acceptable(v: Value, levels: int) {
    levels >= 0 &&
    match v
    case CText(s) => Utf8.Valid(s)
    case CArray(items) => forall x | x in items :: Acceptable(x, levels - 1)
    case CMap(entries) => forall e | e in entries :: EntryAcceptable(e, levels - 1)
    case CTag(_, content) => Acceptable(content, levels - 1)
    case _ => true
  }

  predicate EntryAcceptable(e: Entry, levels: int) {
    Acceptable(e.key, levels) && Acceptable(e.val, levels)
  }

  // ---- the encoder writes the shortest rendering -----------------------------------------

  /** The syntax tree `Encode` writes: every head as short as it can be. */
  function Shortest(v: Value): S.Cst {
    match v
    case CUint(n) => S.Unsigned(S.MinWidth(n), n)
    case CInt(i) => if i >= 0 then S.Unsigned(S.MinWidth(i), i) else S.Negative(S.MinWidth(-1 - i), -1 - i)
    case CText(s) => S.Text(S.MinWidth(|s|), s)
    case CBytes(b) => S.Bytes(S.MinWidth(|b|), b)
    case CArray(items) => S.Array(S.MinWidth(|items|), ShortestAll(items))
    case CMap(entries) => S.Map(S.MinWidth(|entries|), ShortestEntries(entries))
    case CTag(num, content) => S.Tagged(S.MinWidth(num), num, Shortest(content))
  }

  function ShortestAll(vs: seq<Value>): (cs: seq<S.Cst>)
    ensures |cs| == |vs|
  {
    if vs == [] then [] else [Shortest(vs[0])] + ShortestAll(vs[1..])
  }

  function ShortestEntry(e: Entry): (cs: seq<S.Cst>)
    ensures |cs| == 2
  {
    [Shortest(e.key), Shortest(e.val)]
  }

  function ShortestEntries(es: seq<Entry>): (cs: seq<S.Cst>)
    ensures |cs| == 2 * |es|
  {
    if es == [] then [] else ShortestEntry(es[0]) + ShortestEntries(es[1..])
  }

  /** `Encode` renders `Shortest`, which is supported syntax denoting the normal value. */
  lemma {:induction false} EncodesShortest(v: Value)
    requires InMemory(v)
    ensures Encode(v) == S.Render(Shortest(v))
    ensures S.WellFormed(Shortest(v)) && Supported(Shortest(v)) && ValueOf(Shortest(v)) == Normal(v)
    decreases v, 0
  {
    hide S.Head, EncodeAll, EncodeEntries, S.RenderAll, Paired, ValuesOf, S.AllWellFormed, AllSupported, NormalAll,
      NormalEntries;
    match v {
      case CArray(items) => EncodesShortestAll(items);
      case CMap(entries) => EncodesShortestEntries(entries);
      case CTag(num, content) => EncodesShortest(content);
      case _ =>
    }
  }

  lemma {:induction false} EncodesShortestAll(vs: seq<Value>)
    requires forall x | x in vs :: InMemory(x)
    ensures EncodeAll(vs) == S.RenderAll(ShortestAll(vs))
    ensures S.AllWellFormed(ShortestAll(vs)) && AllSupported(ShortestAll(vs))
    ensures ValuesOf(ShortestAll(vs)) == NormalAll(vs)
    decreases vs, 1
  {
    hide Encode, S.Render, S.WellFormed, Supported, ValueOf, Normal, InMemory, Shortest;
    if vs != [] {
      EncodesShortest(vs[0]);
      EncodesShortestAll(vs[1..]);
    }
  }

  lemma {:induction false} EncodesShortestEntry(e: Entry)
    requires EntryInMemory(e)
    ensures Encode(e.key) == S.Render(Shortest(e.key)) && Encode(e.val) == S.Render(Shortest(e.val))
    ensures S.WellFormed(Shortest(e.key)) && Supported(Shortest(e.key)) && ValueOf(Shortest(e.key)) == Normal(e.key)
    ensures S.WellFormed(Shortest(e.val)) && Supported(Shortest(e.val)) && ValueOf(Shortest(e.val)) == Normal(e.val)
    decreases e, 2
  {
    hide Encode, S.Render, S.WellFormed, Supported, ValueOf, Normal, InMemory, Shortest;
    EncodesShortest(e.key);
    EncodesShortest(e.val);
  }

  lemma {:induction false} EncodesShortestEntries(es: seq<Entry>)
    requires forall e | e in es :: EntryInMemory(e)
    ensures EncodeEntries(es) == S.RenderAll(ShortestEntries(es))
    ensures S.AllWellFormed(ShortestEntries(es)) && AllSupported(ShortestEntries(es))
    ensures Paired(ValuesOf(ShortestEntries(es))) == NormalEntries(es)
    decreases es, 1
  {
    hide Encode, S.Render, S.WellFormed, Supported, ValueOf, Normal, EntryInMemory, Shortest;
    if es != [] {
      EncodesShortestEntry(es[0]);
      EncodesShortestEntries(es[1..]);
      PairSyntax(Shortest(es[0].key), Shortest(es[0].val), ShortestEntries(es[1..]));
    }
  }

  /** One map entry in front of more entries. */
  lemma PairSyntax(k: S.Cst, x: S.Cst, rest: seq<S.Cst>)
    requires S.WellFormed(k) && S.WellFormed(x) && S.AllWellFormed(rest)
    requires Supported(k) && Supported(x) && AllSupported(rest)
    ensures var cs := [k, x] + rest;
            && S.RenderAll(cs) == S.Render(k) + S.Render(x) + S.RenderAll(rest)
            && S.AllWellFormed(cs) && AllSupported(cs)
            && Paired(ValuesOf(cs)) == [Entry(ValueOf(k), ValueOf(x))] + Paired(ValuesOf(rest))
  {
    hide S.Render, S.WellFormed, Supported, ValueOf;
    var cs := [k, x] + rest;
    assert cs[1..] == [x] + rest && cs[1..][1..] == rest;
    assert ValuesOf(cs)[2..] == ValuesOf(rest);
  }

  /** Text validity and nesting of a value are those of the syntax it is written in. */
  lemma {:induction false} AcceptableSyntax(v: Value, levels: int)
    requires InMemory(v)
    ensures Acceptable(v, levels) <==> S.TextValid(Shortest(v)) && S.Height(Shortest(v)) <= levels
    decreases v, 0
  {
    if levels >= 0 {
      match v {
        case CArray(items) => AcceptableSyntaxAll(items, levels - 1);
        case CMap(entries) => AcceptableSyntaxEntries(entries, levels - 1);
        case CTag(num, content) => AcceptableSyntax(content, levels - 1);
        case _ =>
      }
    }
  }

  lemma {:induction false} AcceptableSyntaxAll(vs: seq<Value>, levels: int)
    requires (forall x | x in vs :: InMemory(x)) && levels >= -1
    ensures (forall x | x in vs :: Acceptable(x, levels))
       <==> S.AllTextValid(ShortestAll(vs)) && S.Levels(ShortestAll(vs)) <= levels + 1
    decreases vs, 1
  {
    hide InMemory, Acceptable, Shortest, S.TextValid, S.Height;
    if vs != [] {
      AcceptableSyntax(vs[0], levels);
      AcceptableSyntaxAll(vs[1..], levels);
      assert vs == [vs[0]] + vs[1..];
    }
  }

  lemma {:induction false} AcceptableSyntaxEntry(e: Entry, levels: int)
    requires EntryInMemory(e)
    ensures EntryAcceptable(e, levels)
       <==> && S.TextValid(Shortest(e.key)) && S.Height(Shortest(e.key)) <= levels
            && S.TextValid(Shortest(e.val)) && S.Height(Shortest(e.val)) <= levels
    decreases e, 2
  {
    hide InMemory, Acceptable, Shortest, S.TextValid, S.Height;
    AcceptableSyntax(e.key, levels);
    AcceptableSyntax(e.val, levels);
  }

  lemma {:induction false} AcceptableSyntaxEntries(es: seq<Entry>, levels: int)
    requires (forall e | e in es :: EntryInMemory(e)) && levels >= -1
    ensures (forall e | e in es :: EntryAcceptable(e, levels))
       <==> S.AllTextValid(ShortestEntries(es)) && S.Levels(ShortestEntries(es)) <= levels + 1
    decreases es, 1
  {
    hide EntryInMemory, EntryAcceptable, Shortest, S.TextValid, S.Height;
    if es != [] {
      AcceptableSyntaxEntry(es[0], levels);
      AcceptableSyntaxEntries(es[1..], levels);
      assert es == [es[0]] + es[1..];
      PairLevels(Shortest(es[0].key), Shortest(es[0].val), ShortestEntries(es[1..]));
    }
  }

  lemma PairLevels(k: S.Cst, x: S.Cst, rest: seq<S.Cst>)
    ensures S.AllTextValid([k, x] + rest) <==> S.TextValid(k) && S.TextValid(x) && S.AllTextValid(rest)
    ensures S.Levels([k, x] + rest) == Max(1 + S.Height(k), Max(1 + S.Height(x), S.Levels(rest)))
  {
    hide S.TextValid, S.Height;
    var cs := [k, x] + rest;
    assert cs[1..] == [x] + rest && cs[1..][1..] == rest;
  }

  // ---- main results ------------------------------------------------------------------------

  /** Decoding an encoding, with anything behind it, gives the value back and stops exactly at
      its end; and that works for a value exactly when its text is UTF-8 and it nests at most
      64 levels. */
  lemma {:induction false} RoundTrip(v: Value, suffix: seq<byte>)
    requires InMemory(v)
    ensures Decode(Encode(v) + suffix, 0).Ok? <==> Acceptable(v, MAX_DEPTH)
    ensures Acceptable(v, MAX_DEPTH) ==> Decode(Encode(v) + suffix, 0) == Ok(Item(Normal(v), |Encode(v)|))
  {
    hide *;
    var b := Encode(v) + suffix;
    EncodesShortest(v);
    AcceptableSyntax(v, MAX_DEPTH);
    if Acceptable(v, MAX_DEPTH) {
      AcceptsRendering(Shortest(v), b, 0);
    }
    if Decode(b, 0).Ok? {
      var c := AcceptedIsRendering(b, 0);
      S.Unambiguous(c, Shortest(v), b);
    }
  }

  /** Equal bytes come from equal values, and no encoding is a proper prefix of another. */
  lemma {:induction false} EncodeInjective(v: Value, w: Value)
    requires InMemory(v) && InMemory(w) && Encode(v) <= Encode(w)
    ensures Normal(v) == Normal(w) && Encode(v) == Encode(w)
  {
    hide *;
    EncodesShortest(v);
    EncodesShortest(w);
    S.Unambiguous(Shortest(v), Shortest(w), Encode(w));
  }

  /** Every head of the tree is as short as it can be. */
  predicate AllHeadsShortest(c: S.Cst) {
    match c
    case Unsigned(w, n) => w == S.MinWidth(n)
    case Negative(w, n) => w == S.MinWidth(n)
    case Bytes(w, data) => w == S.MinWidth(|data|)
    case Text(w, data) => w == S.MinWidth(|data|)
    case Array(w, items) => w == S.MinWidth(|items|) && HeadsShortestIn(items)
    case Map(w, items) => w == S.MinWidth(|items| / 2) && HeadsShortestIn(items)
    case Tagged(w, num, content) => w == S.MinWidth(num) && AllHeadsShortest(content)
    case _ => false
  }

  predicate HeadsShortestIn(cs: seq<S.Cst>) {
    cs != [] ==> AllHeadsShortest(cs[0]) && HeadsShortestIn(cs[1..])
  }

  lemma ShortestIsShortest(major: nat, w: S.Width, n: nat)
    requires major < 8 && n < S.Limit(w)
    ensures |ShortestHead(major, n)| <= |S.Head(major, w, n)|
    ensures |ShortestHead(major, n)| == |S.Head(major, w, n)| <==> w == S.MinWidth(n)
  {
  }

  /** Re-encoding what a supported tree denotes. */
  lemma {:induction false} Reencode(c: S.Cst)
    requires S.WellFormed(c) && Supported(c)
    ensures |Encode(ValueOf(c))| <= |S.Render(c)|
    ensures AllHeadsShortest(c) ==> Encode(ValueOf(c)) == S.Render(c)
    ensures |Encode(ValueOf(c))| == |S.Render(c)| ==> AllHeadsShortest(c)
    decreases c, 0
  {
    hide S.Head, EncodeAll, EncodeEntries, S.RenderAll, HeadsShortestIn, Paired, ValuesOf, S.AllWellFormed,
      AllSupported;
    S.RenderParts(c);
    ShortestIsShortest(S.Major(c), S.Opening(c).0, S.Opening(c).1);
    match c {
      case Array(_, items) => ReencodeAll(items);
      case Map(_, items) => ReencodeEntries(items);
      case Tagged(_, _, content) => Reencode(content);
      case _ =>
    }
  }

  lemma {:induction false} ReencodeAll(cs: seq<S.Cst>)
    requires S.AllWellFormed(cs) && AllSupported(cs)
    ensures |EncodeAll(ValuesOf(cs))| <= |S.RenderAll(cs)|
    ensures HeadsShortestIn(cs) ==> EncodeAll(ValuesOf(cs)) == S.RenderAll(cs)
    ensures |EncodeAll(ValuesOf(cs))| == |S.RenderAll(cs)| ==> HeadsShortestIn(cs)
    decreases cs, 1
  {
    hide Encode, S.Render, S.WellFormed, Supported, ValueOf, AllHeadsShortest;
    if cs != [] {
      Reencode(cs[0]);
      ReencodeAll(cs[1..]);
    }
  }

  lemma {:induction false} ReencodeEntries(cs: seq<S.Cst>)
    requires S.AllWellFormed(cs) && AllSupported(cs) && |cs| % 2 == 0
    ensures |Paired(ValuesOf(cs))| == |cs| / 2
    ensures |EncodeEntries(Paired(ValuesOf(cs)))| <= |S.RenderAll(cs)|
    ensures HeadsShortestIn(cs) ==> EncodeEntries(Paired(ValuesOf(cs))) == S.RenderAll(cs)
    ensures |EncodeEntries(Paired(ValuesOf(cs)))| == |S.RenderAll(cs)| ==> HeadsShortestIn(cs)
    decreases cs, 1
  {
    hide Encode, S.Render, S.WellFormed, Supported, ValueOf, AllHeadsShortest;
    if cs != [] {
      var k, x, rest := cs[0], cs[1], cs[2..];
      assert cs == [k, x] + rest && cs[1..][0] == x && cs[1..][1..] == rest;
      Reencode(k);
      Reencode(x);
      ReencodeEntries(rest);
      PairSyntax(k, x, rest);
      assert Paired(ValuesOf(cs))[1..] == Paired(ValuesOf(rest));
      assert HeadsShortestIn(cs) <==> AllHeadsShortest(k) && AllHeadsShortest(x) && HeadsShortestIn(rest);
    }
  }

  /** Re-encoding what was decoded is never longer than the bytes read, and gives those very
      bytes back exactly when every head in them was the shortest possible. */
  lemma {:induction false} ReencodeNeverLonger(b: seq<byte>, depth: nat) returns (c: S.Cst)
    requires Decode(b, depth).Ok?
    ensures var item := Decode(b, depth).value;
            && S.WellFormed(c) && S.Render(c) == b[..item.used]
            && |Encode(item.value)| <= item.used
            && (|Encode(item.value)| == item.used <==> AllHeadsShortest(c))
            && (Encode(item.value) == b[..item.used] <==> AllHeadsShortest(c))
  {
    hide *;
    c := AcceptedIsRendering(b, depth);
    Reencode(c);
  }
}
