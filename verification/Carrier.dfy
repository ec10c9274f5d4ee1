/** The in-memory frame carrier of transports/go/carrier.go. */
module Carrier {
  import opened Bytes

  class LoopbackFrameCarrier {
    var outbound: seq<seq<byte>>
    var inbound: seq<seq<byte>>

    constructor ()
      ensures outbound == [] && inbound == []
    {
      outbound, inbound := [], [];
    }

    method PushInbound(frame: seq<byte>)
      modifies this`inbound
      ensures inbound == old(inbound) + [frame]
    {
      inbound := inbound + [frame];
    }

    method TakeOutbound() returns (frame: Option<seq<byte>>)
      modifies this`outbound
      ensures old(outbound) == [] ==> frame == None && outbound == []
      ensures old(outbound) != [] ==> frame == Some(old(outbound)[0]) && outbound == old(outbound)[1..]
    {
      if |outbound| == 0 {
        return None;
      }
      frame := Some(outbound[0]);
      outbound := outbound[1..];
    }

    method SendFrame(frame: seq<byte>)
      modifies this`outbound
      ensures outbound == old(outbound) + [frame]
    {
      outbound := outbound + [frame];
    }

    method RecvFrame() returns (frame: Option<seq<byte>>)
      modifies this`inbound
      ensures old(inbound) == [] ==> frame == None && inbound == []
      ensures old(inbound) != [] ==> frame == Some(old(inbound)[0]) && inbound == old(inbound)[1..]
    {
      if |inbound| == 0 {
        return None;
      }
      frame := Some(inbound[0]);
      inbound := inbound[1..];
    }
  }
}
