/** Length-prefixed frames over a byte stream: transports/go/carrier.go and
    transports/c/src/carrier.c. */
module Framing {
  import opened Bytes
  import opened Conventions

  datatype Received =
    | EndOfStream
    | Frame(data: seq<byte>)
    | TooLarge(got: nat)
    | Broken                 // the stream failed, or ended inside a frame
    | OutOfMemory            // the C carrier could not allocate the frame

  datatype Sent = Delivered | Refused | NotWritten

  // ---- the framing, independent of how reads are split --------------------------------------------

  const PREFIX := 4

  /** A frame on the wire; a length of 2^32 or more would lose its high bits. */
  function Framed(data: seq<byte>): seq<byte> {
    BigEndian(|data|, PREFIX) + data
  }

  /** What one receive makes of the bytes up to the end of the stream; `fails` says that a read error
      ends it. */
  function Receive(b: seq<byte>, max: nat, fails: bool): Received {
    if b == [] then if fails then Broken else EndOfStream
    else if |b| < PREFIX then Broken
    else
      var length := FromBigEndian(b[..PREFIX]);
      if length > max then TooLarge(length)
      else if |b| - PREFIX < length then Broken
      else Frame(b[PREFIX..PREFIX + length])
  }

  /** Everything a reader gets from a stream, and what ended it. */
  function ReceiveAll(b: seq<byte>, max: nat, fails: bool): (seq<seq<byte>>, Received)
    decreases |b|
  {
    match Receive(b, max, fails)
    case Frame(data) =>
      var (frames, end) := ReceiveAll(b[PREFIX + |data|..], max, fails);
      ([data] + frames, end)
    case end => ([], end)
  }

  function SentAll(frames: seq<seq<byte>>): seq<byte> {
    if frames == [] then [] else Framed(frames[0]) + SentAll(frames[1..])
  }

  lemma ReceiveFramed(data: seq<byte>, rest: seq<byte>, max: nat, fails: bool)
    requires |data| <= max <= MAX_FRAME_LIMIT
    ensures Receive(Framed(data) + rest, max, fails) == Frame(data)
    ensures (Framed(data) + rest)[PREFIX + |data|..] == rest
  {
    assert Pow256(4) == 0x1_0000_0000;
    BigEndianRoundTrip(|data|, PREFIX);
    assert (Framed(data) + rest)[..PREFIX] == BigEndian(|data|, PREFIX);
  }

  /** A stream cut inside the first frame breaks, unless it is cut before the first byte. */
  lemma ReceiveCut(data: seq<byte>, rest: seq<byte>, max: nat, fails: bool, cut: nat)
    requires |data| <= max <= MAX_FRAME_LIMIT && cut < PREFIX + |data|
    ensures Receive((Framed(data) + rest)[..cut], max, fails) == if cut == 0 && !fails then EndOfStream else Broken
  {
    if cut >= PREFIX {
      assert Pow256(4) == 0x1_0000_0000;
      BigEndianRoundTrip(|data|, PREFIX);
      assert (Framed(data) + rest)[..cut][..PREFIX] == BigEndian(|data|, PREFIX);
    }
  }

  /** Any list of frames within a validated limit, cut after any number of bytes, reads back as
      the frames that are whole before the cut; the stream ends cleanly exactly when the cut is between
      frames and no read failed there, and otherwise with an error, never with a partial frame. */
  lemma {:induction false} FramesReadBack(frames: seq<seq<byte>>, max: nat, fails: bool, cut: nat) returns (whole: nat)
    requires ValidateMaxFrame(max) && (forall f | f in frames :: |f| <= max) && cut <= |SentAll(frames)|
    ensures whole <= |frames| && |SentAll(frames[..whole])| <= cut
    ensures whole < |frames| ==> cut < |SentAll(frames[..whole + 1])|
    ensures ReceiveAll(SentAll(frames)[..cut], max, fails)
         == (frames[..whole], if cut == |SentAll(frames[..whole])| && !fails then EndOfStream else Broken)
    decreases |frames|
  {
    hide Receive, Framed, SentAll;
    SentUnfold(frames);
    if frames == [] {
      whole := 0;
      ReceiveNothing(max, fails);
    } else {
      var first, rest := frames[0], SentAll(frames[1..]);
      assert frames[0] in frames;
      FramedLength(first);
      SentNothing(frames[..0]);
      if cut < PREFIX + |first| {
        whole := 0;
        ReceiveCut(first, rest, max, fails, cut);
        SentPrefix(frames, 0);
        SentNothing(frames[1..][..0]);
      } else {
        var k := PREFIX + |first|;
        whole := FramesReadBack(frames[1..], max, fails, cut - k);
        var stream := SentAll(frames)[..cut];
        assert stream == Framed(first) + rest[..cut - k];
        ReceiveFramed(first, rest[..cut - k], max, fails);
        SentPrefix(frames, whole);
        if whole < |frames| - 1 { SentPrefix(frames, whole + 1); }
        assert frames[..whole + 1] == [first] + frames[1..][..whole];
        whole := whole + 1;
      }
    }
  }

  lemma ReceiveNothing(max: nat, fails: bool)
    ensures Receive([], max, fails) == if fails then Broken else EndOfStream
  {
  }

  lemma FramedLength(data: seq<byte>)
    ensures |Framed(data)| == PREFIX + |data|
  {
  }

  lemma SentUnfold(frames: seq<seq<byte>>)
    ensures SentAll(frames) == if frames == [] then [] else Framed(frames[0]) + SentAll(frames[1..])
  {
  }

  lemma SentNothing(frames: seq<seq<byte>>)
    requires |frames| == 0
    ensures SentAll(frames) == []
  {
  }

  lemma SentPrefix(frames: seq<seq<byte>>, n: nat)
    requires n < |frames|
    ensures SentAll(frames[..n + 1]) == Framed(frames[0]) + SentAll(frames[1..][..n])
  {
    assert frames[..n + 1][1..] == frames[1..][..n];
  }

  // ---- streams that read in pieces -----------------------------------------------------------------

  /** A byte stream as a host supplies it: reads may return fewer bytes than asked for and end with a
      clean end or, where `fails`, with an error; writes may stop short unless the stream is `healthy`. */
  class ByteStream {
    var incoming: seq<byte>
    var outgoing: seq<byte>
    const fails: bool
    const healthy: bool

    constructor (incoming: seq<byte>, fails: bool, healthy: bool)
      ensures this.incoming == incoming && outgoing == [] && this.fails == fails && this.healthy == healthy
    {
      this.incoming := incoming;
      this.fails := fails;
      this.healthy := healthy;
      outgoing := [];
    }

    /** A write that fails may have passed on some of its bytes. */
    method Write(data: seq<byte>) returns (ok: bool)
      modifies this`outgoing
      ensures ok ==> outgoing == old(outgoing) + data
      ensures !ok ==> !healthy && exists k | 0 <= k <= |data| :: outgoing == old(outgoing) + data[..k]
    {
      var k: nat :| k <= |data|;
      ok := *;
      if healthy || ok {
        k, ok := |data|, true;
        assert data[..k] == data;
      }
      outgoing := outgoing + data[..k];
    }

    /** Reads between 1 and `len` bytes into `buf` at `off`; 0 is the end of the stream and a negative
        number an error. */
    method Read(buf: array<byte>, off: nat, len: nat) returns (n: int)
      requires 0 < len && off + len <= buf.Length
      modifies this`incoming, buf
      ensures n <= len && n <= |old(incoming)|
      ensures (n <= 0 <==> old(incoming) == []) && (n < 0 <==> old(incoming) == [] && fails)
      ensures n <= 0 ==> incoming == old(incoming) && buf[..off] == old(buf[..off])
      ensures n > 0 ==> incoming == old(incoming)[n..] && buf[..off + n] == old(buf[..off]) + old(incoming)[..n]
    {
      if incoming == [] {
        return if fails then -1 else 0;
      }
      n :| 1 <= n <= len && n <= |incoming|;
      forall i | 0 <= i < n {
        buf[off + i] := incoming[i];
      }
      incoming := incoming[n..];
    }
  }

  /** Fills `buf` from the stream, in however many pieces that takes. An end of the stream before the
      first byte is no error. */
  method ReadFull(stream: ByteStream, buf: array<byte>) returns (ok: bool, gotAny: bool)
    modifies stream`incoming, buf
    ensures ok <==> |old(stream.incoming)| >= buf.Length || (old(stream.incoming) == [] && !stream.fails)
    ensures gotAny <==> buf.Length > 0 && old(stream.incoming) != []
    ensures |old(stream.incoming)| >= buf.Length ==>
              buf[..] == old(stream.incoming)[..buf.Length] && stream.incoming == old(stream.incoming)[buf.Length..]
  {
    var off: nat := 0;
    gotAny := false;
    while off < buf.Length
      invariant off <= buf.Length && off <= |old(stream.incoming)|
      invariant buf[..off] == old(stream.incoming)[..off]
      invariant stream.incoming == old(stream.incoming)[off..]
      invariant gotAny <==> off > 0
    {
      var n := stream.Read(buf, off, buf.Length - off);
      if n < 0 {
        return false, gotAny;
      }
      if n == 0 {
        return off == 0, gotAny;
      }
      assert old(stream.incoming)[..off + n] == old(stream.incoming)[..off] + old(stream.incoming)[off..][..n];
      off := off + n;
      gotAny := true;
    }
    ok := true;
  }

  /** What sending one frame comes to: too long a frame writes nothing, a failed write leaves some part
      of the framed bytes behind, and a healthy stream takes every frame within the limit. */
  ghost predicate SendsFrame(data: seq<byte>, max: nat, healthy: bool, before: seq<byte>, after: seq<byte>, r: Sent) {
    && (r == Refused <==> |data| > max)
    && (r == Refused ==> after == before)
    && (r == Delivered ==> after == before + Framed(data))
    && (r == NotWritten ==> !healthy && exists k | 0 <= k <= |Framed(data)| :: after == before + Framed(data)[..k])
  }

  lemma PartSent(data: seq<byte>, max: nat, before: seq<byte>, after: seq<byte>, k: nat)
    requires |data| <= max && k <= |data| && after == before + BigEndian(|data|, PREFIX) + data[..k]
    ensures SendsFrame(data, max, false, before, after, NotWritten)
  {
    hide BigEndian;
    var prefix := BigEndian(|data|, PREFIX);
    Behind(before, prefix, data, k);
    assert 0 <= |prefix| + k <= |Framed(data)| && after == before + Framed(data)[..|prefix| + k];
  }

  lemma Behind(a: seq<byte>, b: seq<byte>, c: seq<byte>, k: nat)
    requires k <= |c|
    ensures a + b + c[..k] == a + (b + c)[..|b| + k]
  {
    assert (b + c)[..|b| + k] == b + c[..k];
  }

  lemma PrefixPartSent(data: seq<byte>, max: nat, before: seq<byte>, after: seq<byte>, k: nat)
    requires |data| <= max && k <= PREFIX && after == before + BigEndian(|data|, PREFIX)[..k]
    ensures SendsFrame(data, max, false, before, after, NotWritten)
  {
    hide BigEndian;
    assert Framed(data)[..k] == BigEndian(|data|, PREFIX)[..k];
  }

  // ---- the Go carrier ---------------------------------------------------------------------------------

  method WriteLengthPrefixed(w: ByteStream, data: seq<byte>, max: nat) returns (r: Sent)
    modifies w`outgoing
    ensures SendsFrame(data, max, w.healthy, old(w.outgoing), w.outgoing, r)
  {
    ghost var before := w.outgoing;
    if |data| > max {
      return Refused;
    }
    var prefix := BigEndian(|data|, PREFIX);
    var ok := w.Write(prefix);
    if !ok {
      ghost var k: nat :| k <= |prefix| && w.outgoing == before + prefix[..k];
      PrefixPartSent(data, max, before, w.outgoing, k);
      return NotWritten;
    }
    ghost var between := w.outgoing;
    ok := w.Write(data);
    if !ok {
      ghost var k: nat :| k <= |data| && w.outgoing == between + data[..k];
      PartSent(data, max, before, w.outgoing, k);
      return NotWritten;
    }
    return Delivered;
  }

  method ReadLengthPrefixed(stream: ByteStream, max: nat) returns (r: Received)
    modifies stream`incoming
    ensures r == Receive(old(stream.incoming), max, stream.fails)
    ensures r.Frame? ==> stream.incoming == old(stream.incoming)[PREFIX + |r.data|..]
  {
    var lenBuf := new byte[PREFIX];
    var ok, gotAny := ReadFull(stream, lenBuf);
    if !ok {
      return Broken;
    }
    if !gotAny {
      return EndOfStream;
    }
    var length := FromBigEndian(lenBuf[..]);
    if length > max {
      return TooLarge(length);
    }
    var buf := new byte[length];
    ok, gotAny := ReadFull(stream, buf);
    if !ok || (length > 0 && !gotAny) {
      return Broken;
    }
    return Frame(buf[..]);
  }

  // ---- the C carrier ----------------------------------------------------------------------------------

  method StreamSend(stream: ByteStream, data: seq<byte>, maxFrame: nat) returns (r: Sent)
    requires maxFrame <= MAX_FRAME_LIMIT
    modifies stream`outgoing
    ensures SendsFrame(data, maxFrame, stream.healthy, old(stream.outgoing), stream.outgoing, r)
  {
    ghost var before := stream.outgoing;
    var len := |data|;
    if len > maxFrame {
      return Refused;
    }
    var prefix := [len / 0x100_0000 % 0x100, len / 0x1_0000 % 0x100, len / 0x100 % 0x100, len % 0x100];
    PrefixBytes(len);
    var ok := stream.Write(prefix);
    if !ok {
      ghost var k: nat :| k <= |prefix| && stream.outgoing == before + prefix[..k];
      PrefixPartSent(data, maxFrame, before, stream.outgoing, k);
      return NotWritten;
    }
    if len != 0 {
      ghost var between := stream.outgoing;
      ok := stream.Write(data);
      if !ok {
        ghost var k: nat :| k <= |data| && stream.outgoing == between + data[..k];
        PartSent(data, maxFrame, before, stream.outgoing, k);
        return NotWritten;
      }
    }
    return Delivered;
  }

  lemma PrefixBytes(n: nat)
    ensures BigEndian(n, 4) == [n / 0x100_0000 % 0x100, n / 0x1_0000 % 0x100, n / 0x100 % 0x100, n % 0x100]
  {
    assert n / 0x100 / 0x100 == n / 0x1_0000;
    assert n / 0x1_0000 / 0x100 == n / 0x100_0000;
    assert BigEndian(n / 0x100_0000, 1) == [n / 0x100_0000 % 0x100];
    assert BigEndian(n / 0x1_0000, 2) == BigEndian(n / 0x100_0000, 1) + [n / 0x1_0000 % 0x100];
    assert BigEndian(n / 0x100, 3) == BigEndian(n / 0x1_0000, 2) + [n / 0x100 % 0x100];
  }

  /** `canAllocate` is whether `malloc` succeeds for the frame's buffer. */
  method StreamRecv(stream: ByteStream, maxFrame: nat, canAllocate: bool) returns (r: Received)
    modifies stream`incoming
    ensures canAllocate ==> r == Receive(old(stream.incoming), maxFrame, stream.fails)
    ensures !canAllocate ==>
              r == if |old(stream.incoming)| >= PREFIX && FromBigEndian(old(stream.incoming)[..PREFIX]) <= maxFrame
                   then OutOfMemory
                   else Receive(old(stream.incoming), maxFrame, stream.fails)
    ensures r.Frame? ==> stream.incoming == old(stream.incoming)[PREFIX + |r.data|..]
  {
    var lenbuf := new byte[4];
    var off: nat := 0;
    var sawPartial := false;
    while off < 4
      invariant off <= 4 && off <= |old(stream.incoming)| && (sawPartial <==> off > 0)
      invariant lenbuf[..off] == old(stream.incoming)[..off]
      invariant stream.incoming == old(stream.incoming)[off..]
    {
      var n := stream.Read(lenbuf, off, 4 - off);
      if n < 0 {
        return Broken;
      }
      if n == 0 {
        return if off == 0 && !sawPartial then EndOfStream else Broken;
      }
      assert old(stream.incoming)[..off + n] == old(stream.incoming)[..off] + old(stream.incoming)[off..][..n];
      off := off + n;
      sawPartial := true;
    }
    var length: nat :=
      0x100_0000 * (lenbuf[0] as int) + 0x1_0000 * (lenbuf[1] as int) + 0x100 * (lenbuf[2] as int) + lenbuf[3];
    assert lenbuf[..] == lenbuf[..4] == old(stream.incoming)[..PREFIX];
    PrefixValue(lenbuf[..]);
    if length > maxFrame {
      return TooLarge(length);
    }
    if !canAllocate {
      return OutOfMemory;
    }
    var buf := new byte[length];
    if length != 0 {
      var ok, gotAny := ReadFull(stream, buf);
      if !ok || !gotAny {
        return Broken;
      }
    }
    return Frame(buf[..]);
  }

  lemma PrefixValue(b: seq<byte>)
    requires |b| == 4
    ensures FromBigEndian(b)
         == 0x100_0000 * (b[0] as int) + 0x1_0000 * (b[1] as int) + 0x100 * (b[2] as int) + b[3]
  {
    var t := b[..3];
    var u := t[..2];
    assert u[..1][..0] == [];
    assert FromBigEndian(u[..1]) == b[0];
    assert FromBigEndian(u) == 256 * (b[0] as int) + b[1];
    assert FromBigEndian(t) == 256 * FromBigEndian(u) + b[2];
  }
}
