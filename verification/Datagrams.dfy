/** CSIL-Datagrams: both datagram profiles and the sequence tracker
    (transports/go/datagrams.go). */
module Datagrams {
  import opened Basics
  import opened Bytes
  import opened GoCbor
  import opened GoRoundTrip
  import opened Conventions
  import Events

  // ---- array profile -----------------------------------------------------------------------------

  datatype Datagram = Datagram(opOrd: u64, seqNo: u64, payload: seq<byte>)

  function DatagramItems(d: Datagram): seq<Value> {
    [CUint(VERSION), CUint(d.opOrd), CUint(d.seqNo), Tag24(d.payload)]
  }

  function EncodeDatagram(d: Datagram): seq<byte> {
    Encode(CArray(DatagramItems(d)))
  }

  function DecodeDatagram(b: seq<byte>): Result<Datagram, EnvelopeError> {
    var v :- Envelope(b);
    if !v.CArray? || |v.items| != 4 then Err(Malformed("datagram array"))
    else if AsU64(v.items[0]) == None then Err(Malformed("datagram field"))
    else
      var _ :- CheckVersion(AsU64(v.items[0]).value);
      if AsU64(v.items[1]) == None || AsU64(v.items[2]) == None then Err(Malformed("datagram field"))
      else
        var payload :- Untag24(v.items[3]);
        Ok(Datagram(AsU64(v.items[1]).value, AsU64(v.items[2]).value, payload))
  }

  /** Every datagram decodes back to itself, for all 64-bit ordinals and sequence numbers. */
  lemma DatagramRoundTrip(d: Datagram)
    requires |d.payload| <= MAX_INT64
    ensures DecodeDatagram(EncodeDatagram(d)) == Ok(d)
  {
    hide Encode, Envelope, InMemory, Acceptable, Normal, Tag24, Untag24;
    var items := DatagramItems(d);
    PayloadSendable(d.payload);
    NumbersSendable();
    Events.UnsignedNormal();
    ItemsReadBack(items);
    Events.NormalItemwise(items);
    UntagsItself(d.payload);
    assert Envelope(Encode(CArray(items))).value.items == items;
  }

  // ---- compact profile ---------------------------------------------------------------------------

  type u16 = x: int | 0 <= x < 0x1_0000

  datatype CompactDatagram = CompactDatagram(opOrd: byte, seqNo: u16, epoch: Option<byte>, body: seq<byte>)

  const COMPACT_VERSION := 1
  const FLAG_EPOCH := 1

  function EncodeCompact(d: CompactDatagram): seq<byte> {
    [16 * COMPACT_VERSION + (if d.epoch.Some? then FLAG_EPOCH else 0), d.opOrd, d.seqNo / 256, d.seqNo % 256]
    + (if d.epoch.Some? then [d.epoch.value] else [])
    + d.body
  }

  function DecodeCompact(b: seq<byte>): Result<CompactDatagram, EnvelopeError> {
    if |b| < 4 then Err(Malformed("shorter than the 4-byte header"))
    else if b[0] / 16 != COMPACT_VERSION then Err(UnsupportedVersion(b[0] / 16))
    else
      var seqNo := 256 * (b[2] as int) + b[3];
      if b[0] % 2 == FLAG_EPOCH then
        if |b| < 5 then Err(Malformed("epoch byte absent"))
        else Ok(CompactDatagram(b[1], seqNo, Some(b[4]), b[5..]))
      else Ok(CompactDatagram(b[1], seqNo, None, b[4..]))
  }

  lemma {:induction false} CompactRoundTrip(d: CompactDatagram)
    ensures DecodeCompact(EncodeCompact(d)) == Ok(d)
  {
    var b := EncodeCompact(d);
    if d.epoch.Some? {
      assert b[5..] == d.body;
    } else {
      assert b[4..] == d.body;
    }
  }

  /** Encoding what was decoded gives the datagram's own bytes exactly when its three spare flag
      bits were zero: the decoder ignores them and the encoder clears them. */
  lemma {:induction false} CompactReencode(b: seq<byte>)
    requires DecodeCompact(b).Ok?
    ensures EncodeCompact(DecodeCompact(b).value) == b <==> b[0] % 16 <= 1
  {
    var d := DecodeCompact(b).value;
    if b[0] % 16 <= 1 {
      if d.epoch.Some? {
        assert b == b[..5] + b[5..];
      } else {
        assert b == b[..4] + b[4..];
      }
    }
  }

  /** For one: a spare flag bit that was set is gone. */
  lemma SpareBitIsLost()
    ensures DecodeCompact([0x12, 0, 0, 0]).Ok?
    ensures EncodeCompact(DecodeCompact([0x12, 0, 0, 0]).value) == [0x10, 0, 0, 0]
  {
    assert [0x12, 0, 0, 0][4..] == [];
  }

  // ---- sequence tracking ---------------------------------------------------------------------------

  datatype Kind = First | Advanced | LateOrDuplicate | Restart

  datatype SeqEvent = SeqEvent(kind: Kind, gap: u64)

  datatype Tracking = Tracking(lastSeq: Option<u64>, lastEpoch: Option<byte>)

  datatype Arrival = Arrival(seqNo: u64, epoch: Option<byte>)

  /** The sender restarted: an epoch was known and this one is not it. */
  predicate IsRestart(t: Tracking, a: Arrival) {
    t.lastEpoch.Some? && a.epoch != t.lastEpoch
  }

  function Observed(t: Tracking, a: Arrival): (Tracking, SeqEvent) {
    if IsRestart(t, a) then (Tracking(Some(a.seqNo), a.epoch), SeqEvent(Restart, 0))
    else if a.seqNo == 0 then (t.(lastEpoch := a.epoch), SeqEvent(Advanced, 0))
    else if t.lastSeq == None then (Tracking(Some(a.seqNo), a.epoch), SeqEvent(First, 0))
    else if a.seqNo > t.lastSeq.value then
      (Tracking(Some(a.seqNo), a.epoch), SeqEvent(Advanced, a.seqNo - t.lastSeq.value - 1))
    else (t.(lastEpoch := a.epoch), SeqEvent(LateOrDuplicate, 0))
  }

  class SeqTracker {
    var lastSeq: Option<u64>
    var lastEpoch: Option<byte>

    constructor ()
      ensures State() == Tracking(None, None)
    {
      lastSeq, lastEpoch := None, None;
    }

    function State(): Tracking
      reads this
    {
      Tracking(lastSeq, lastEpoch)
    }

    method Observe(seqNo: u64, epoch: Option<byte>) returns (event: SeqEvent)
      modifies this
      ensures (State(), event) == Observed(old(State()), Arrival(seqNo, epoch))
    {
      if epoch != lastEpoch && lastEpoch.Some? {
        lastEpoch := epoch;
        lastSeq := Some(seqNo);
        return SeqEvent(Restart, 0);
      }
      lastEpoch := epoch;
      if seqNo == 0 {
        return SeqEvent(Advanced, 0);
      }
      if lastSeq.None? {
        lastSeq := Some(seqNo);
        return SeqEvent(First, 0);
      }
      var last := lastSeq.value;
      if seqNo > last {
        lastSeq := Some(seqNo);
        return SeqEvent(Advanced, seqNo - last - 1);
      }
      return SeqEvent(LateOrDuplicate, 0);
    }
  }

  // ---- whole runs ------------------------------------------------------------------------------------

  const FRESH := Tracking(None, None)

  /** The tracker after a list of arrivals, oldest first. */
  function After(arrivals: seq<Arrival>): Tracking {
    if arrivals == [] then FRESH else Observed(After(Front(arrivals)), Last(arrivals)).0
  }

  /** How the last of a non-empty list of arrivals was classified. */
  function LastEvent(arrivals: seq<Arrival>): SeqEvent
    requires arrivals != []
  {
    Observed(After(Front(arrivals)), Last(arrivals)).1
  }

  /** The last arrival starts a new epoch: the one before it had an epoch, and this is not it. */
  predicate NewEpoch(arrivals: seq<Arrival>) {
    |arrivals| >= 2 && Last(Front(arrivals)).epoch.Some? && Last(arrivals).epoch != Last(Front(arrivals)).epoch
  }

  /** The tracker holds the epoch of the latest arrival, whatever it was classified as. */
  lemma EpochHeld(arrivals: seq<Arrival>)
    ensures After(arrivals).lastEpoch == if arrivals == [] then None else Last(arrivals).epoch
  {
  }

  /** A restart is reported exactly when the epoch changes from a known one. */
  lemma {:induction false} RestartExactly(arrivals: seq<Arrival>)
    requires arrivals != []
    ensures LastEvent(arrivals).kind == Restart <==> NewEpoch(arrivals)
  {
    EpochHeld(Front(arrivals));
  }

  /** The arrivals from the latest restart on, or all of them. */
  function SinceRestart(arrivals: seq<Arrival>): seq<Arrival> {
    if arrivals == [] then []
    else if NewEpoch(arrivals) then [Last(arrivals)]
    else SinceRestart(Front(arrivals)) + [Last(arrivals)]
  }

  predicate EverRestarted(arrivals: seq<Arrival>) {
    arrivals != [] && (NewEpoch(arrivals) || EverRestarted(Front(arrivals)))
  }

  /** Where counting starts: a restart's own number, or else the first non-zero one. */
  function Anchor(arrivals: seq<Arrival>): Option<u64> {
    var epoch := SinceRestart(arrivals);
    if EverRestarted(arrivals) && epoch != [] then Some(epoch[0].seqNo) else FirstNonZero(epoch)
  }

  function FirstNonZero(arrivals: seq<Arrival>): Option<u64> {
    if arrivals == [] then None
    else if arrivals[0].seqNo != 0 then Some(arrivals[0].seqNo)
    else FirstNonZero(arrivals[1..])
  }

  /** The largest of `m` and the sequence numbers of `arrivals`; zero is unsequenced and, being
      the least number, never counts. */
  function Largest(m: u64, arrivals: seq<Arrival>): u64 {
    if arrivals == [] then m
    else
      var rest := Largest(m, Front(arrivals));
      if Last(arrivals).seqNo > rest then Last(arrivals).seqNo else rest
  }

  /** The numbers passed over since the restart: `gap + 1` for every sequenced advance. */
  function Advance(arrivals: seq<Arrival>): nat {
    if arrivals == [] || NewEpoch(arrivals) then 0
    else Advance(Front(arrivals))
         + (if LastEvent(arrivals).kind == Advanced && Last(arrivals).seqNo != 0
            then LastEvent(arrivals).gap + 1 else 0)
  }

  lemma {:induction false} FirstNonZeroAppend(arrivals: seq<Arrival>, a: Arrival)
    ensures FirstNonZero(arrivals + [a])
         == if FirstNonZero(arrivals).Some? then FirstNonZero(arrivals)
            else if a.seqNo != 0 then Some(a.seqNo) else None
    decreases |arrivals|
  {
    if arrivals == [] {
      assert arrivals + [a] == [a];
    } else {
      FirstNonZeroAppend(arrivals[1..], a);
      assert (arrivals + [a])[1..] == arrivals[1..] + [a];
    }
  }

  lemma {:induction false} UnsequencedNeverLargest(m: u64, arrivals: seq<Arrival>)
    requires FirstNonZero(arrivals) == None
    ensures Largest(m, arrivals) == m
    decreases |arrivals|
  {
    if arrivals != [] {
      FirstNonZeroAppend(Front(arrivals), Last(arrivals));
      assert arrivals == Front(arrivals) + [Last(arrivals)];
      UnsequencedNeverLargest(m, Front(arrivals));
    }
  }

  /** Since start or the latest restart: the tracker holds the largest number seen, the advances
      reported add up to the distance from the anchor, and before any non-zero number there is
      nothing to hold. */
  lemma {:induction false} TrackerFollowsRun(arrivals: seq<Arrival>)
    ensures After(arrivals).lastSeq == (match Anchor(arrivals)
                                        case None => None
                                        case Some(anchor) => Some(Largest(anchor, SinceRestart(arrivals))))
    ensures Advance(arrivals)
         == if Anchor(arrivals).Some? then After(arrivals).lastSeq.value - Anchor(arrivals).value else 0
    ensures arrivals != [] ==> SinceRestart(arrivals) != []
    decreases |arrivals|
  {
    hide FirstNonZero, Largest;
    if arrivals != [] {
      TrackerFollowsRun(Front(arrivals));
      RestartExactly(arrivals);
      var before, a := SinceRestart(Front(arrivals)), Last(arrivals);
      if !NewEpoch(arrivals) {
        AnchorKept(arrivals);
        LargestAppend(a.seqNo, before, a);
        if Anchor(Front(arrivals)).Some? {
          LargestAppend(Anchor(Front(arrivals)).value, before, a);
        } else {
          UnsequencedNeverLargest(a.seqNo, before);
        }
      } else {
        NothingYet(a.seqNo);
        LargestAppend(a.seqNo, [], a);
        assert [] + [a] == [a];
      }
    } else {
      NothingYet(0);
    }
  }

  lemma NothingYet(m: u64)
    ensures FirstNonZero([]) == None && Largest(m, []) == m
  {
  }

  lemma LargestAppend(m: u64, arrivals: seq<Arrival>, a: Arrival)
    ensures Largest(m, arrivals + [a]) == if a.seqNo > Largest(m, arrivals) then a.seqNo else Largest(m, arrivals)
  {
    assert Front(arrivals + [a]) == arrivals && Last(arrivals + [a]) == a;
  }

  /** Within a run the anchor, once there, stays; before that the first non-zero number is it. */
  lemma AnchorKept(arrivals: seq<Arrival>)
    requires arrivals != [] && !NewEpoch(arrivals)
    requires Front(arrivals) != [] ==> SinceRestart(Front(arrivals)) != []
    ensures SinceRestart(arrivals) == SinceRestart(Front(arrivals)) + [Last(arrivals)]
    ensures Anchor(arrivals) == if Anchor(Front(arrivals)).Some? then Anchor(Front(arrivals))
                                else if Last(arrivals).seqNo != 0 then Some(Last(arrivals).seqNo) else None
    ensures Anchor(Front(arrivals)).None? ==> FirstNonZero(SinceRestart(Front(arrivals))) == None
  {
    hide FirstNonZero, After, Observed;
    var before, a := SinceRestart(Front(arrivals)), Last(arrivals);
    FirstNonZeroAppend(before, a);
    assert EverRestarted(arrivals) == EverRestarted(Front(arrivals));
    assert before != [] ==> (before + [a])[0] == before[0];
    assert EverRestarted(Front(arrivals)) ==> Front(arrivals) != [];
  }

  /** How an arrival should be classified after those before it: a change of epoch is a restart, a zero
      advances by nothing, the first number is that, and any other is late or advances past the largest so
      far, with the numbers in between as the gap. */
  function Expected(arrivals: seq<Arrival>, a: Arrival): SeqEvent {
    if NewEpoch(arrivals + [a]) then SeqEvent(Restart, 0)
    else if a.seqNo == 0 then SeqEvent(Advanced, 0)
    else
      match Anchor(arrivals)
      case None => SeqEvent(First, 0)
      case Some(anchor) =>
        var largest := Largest(anchor, SinceRestart(arrivals));
        if a.seqNo > largest then SeqEvent(Advanced, a.seqNo - largest - 1) else SeqEvent(LateOrDuplicate, 0)
  }

  /** Every arrival of every run is classified as it should be. */
  lemma {:induction false} EveryEventAsExpected(arrivals: seq<Arrival>, a: Arrival)
    ensures LastEvent(arrivals + [a]) == Expected(arrivals, a)
  {
    hide Anchor, Largest, SinceRestart, NewEpoch, After;
    TrackerFollowsRun(arrivals);
    RestartExactly(arrivals + [a]);
    assert Front(arrivals + [a]) == arrivals && Last(arrivals + [a]) == a;
  }

  /** An arrival counts as late or duplicate exactly when it is sequenced, starts no new epoch, and is at
      most the largest number seen since the anchor. */
  lemma {:induction false} LateExactlyWhenNotNewer(arrivals: seq<Arrival>, a: Arrival)
    ensures LastEvent(arrivals + [a]).kind == LateOrDuplicate <==>
              && !NewEpoch(arrivals + [a])
              && a.seqNo != 0
              && Anchor(arrivals).Some?
              && a.seqNo <= Largest(Anchor(arrivals).value, SinceRestart(arrivals))
  {
    hide Anchor, Largest, SinceRestart, NewEpoch, LastEvent;
    EveryEventAsExpected(arrivals, a);
  }
}
