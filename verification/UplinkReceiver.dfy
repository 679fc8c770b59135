/** The satellite's uplink side in place: the maps and pending fields of
    SatelliteSim/simulator.cpp, updated by the methods below as UplinkSatellite describes. */
module UplinkReceiver {
  import opened Bytes
  import opened UplinkWire
  import opened DcChannels
  import opened SlotClock
  import opened Allocation
  import opened Sat = UplinkSatellite
  import BoardFrame

  /** Datagrams in order of arrival; those that are no board frames are skipped. */
  function AcceptAll(s: Satellite, datagrams: seq<seq<byte>>, currentSlot: Slot): Out {
    if datagrams == [] then Quiet(s)
    else
      var n := |datagrams| - 1;
      var before := AcceptAll(s, datagrams[..n], currentSlot);
      var raw := BoardFrame.Parse(datagrams[n]);
      if raw.None? then before else Both(before, Accept(before.s, DecodeUplink(raw.value), currentSlot))
  }

  /** What two consecutive events amount to. */
  function Both(a: Out, b: Out): Out {
    Out(b.s, a.packets + b.packets, a.delivered + b.delivered, a.diverted || b.diverted)
  }

  class Receiver {
    var uplinkSessions: map<u32, Session>
    var nextSessionId: byte
    var occupiedDcChannels: set<int>
    var pendingResourceAlloc: bool
    var pendingShipId: u32
    var pendingSessionId: byte
    var pendingAscSlot: Slot

    ghost function Abs(): Satellite
      reads this
    {
      Satellite(uplinkSessions, nextSessionId, occupiedDcChannels,
                pendingResourceAlloc, pendingShipId, pendingSessionId, pendingAscSlot)
    }

    constructor ()
      ensures Abs() == Sat.Initial()
    {
      uplinkSessions := map[];
      nextSessionId := 1;
      occupiedDcChannels := {};
      pendingResourceAlloc, pendingShipId, pendingSessionId, pendingAscSlot := false, 0, 0, 0;
    }

    /** `pick` stands for the random number drawn when all six channels are taken. */
    method AllocateDcChannel(pick: nat) returns (channel: int)
      requires pick < CHANNELS
      modifies this`occupiedDcChannels
      ensures channel == ChannelFor(old(occupiedDcChannels), pick)
      ensures occupiedDcChannels == old(occupiedDcChannels) + {channel}
    {
      channel := FindFree(occupiedDcChannels);
      if channel == -1 {
        return pick;
      }
      occupiedDcChannels := occupiedDcChannels + {channel};
    }

    method ReleaseDcChannel(logicChannel: int)
      modifies this`occupiedDcChannels
      ensures occupiedDcChannels == Released(old(occupiedDcChannels), logicChannel)
    {
      if logicChannel in occupiedDcChannels {
        occupiedDcChannels := occupiedDcChannels - {logicChannel};
      }
    }

    method OnUplinkTimeout(shipId: u32)
      modifies this
      ensures Abs() == Closed(old(Abs()), shipId)
    {
      if shipId in uplinkSessions {
        if uplinkSessions[shipId].channel >= 0 {
          ReleaseDcChannel(uplinkSessions[shipId].channel);
        }
        uplinkSessions := uplinkSessions - {shipId};
      }
    }

    /** A request also restarts the one allocation timer, with the delay returned here. */
    method HandleResourceRequest(shipId: u32, currentSlot: Slot) returns (delayMs: nat)
      modifies this
      ensures Abs() == HandleRequest(old(Abs()), shipId, currentSlot)
      ensures delayMs == DelayMs(SlotsToAsc(currentSlot))
    {
      var sessionId := nextSessionId;
      nextSessionId := (nextSessionId + 1) % 256;
      uplinkSessions := uplinkSessions[shipId := Session(sessionId, 0, [], -1)];
      pendingResourceAlloc := true;
      pendingShipId := shipId;
      pendingSessionId := sessionId;
      var nextAscSlot;
      nextAscSlot, delayMs := FindNextAsc(currentSlot);
      pendingAscSlot := nextAscSlot;
    }

    method HandleFragmentPacket(kind: byte, shipId: u32, sessionId: byte, fragNum: u16, fragData: seq<byte>)
      returns (packets: seq<seq<byte>>, delivered: seq<Delivery>, diverted: bool)
      requires kind in {30, 31, 32}
      modifies this
      ensures Out(Abs(), packets, delivered, diverted)
           == HandleFragment(old(Abs()), kind, shipId, sessionId, fragNum, fragData)
    {
      packets, delivered, diverted := [], [], false;
      if |fragData| >= 2 && fragData[0] == 0xFF && fragData[1] == 0xFE {
        diverted := true;
        return;
      }
      if shipId !in uplinkSessions {
        return;
      }
      var session := uplinkSessions[shipId];
      if session.id != sessionId {
        return;
      }
      if kind == 30 {
        uplinkSessions := uplinkSessions[shipId := session.(data := fragData, expected := 1)];
      } else {
        if fragNum != session.expected {
          OnUplinkTimeout(shipId);
          return;
        }
        session := session.(data := session.data + fragData, expected := session.expected + 1);
        if kind == 32 {
          packets := [AckPacket(shipId, sessionId)];
          if session.channel >= 0 {
            ReleaseDcChannel(session.channel);
          }
          uplinkSessions := uplinkSessions - {shipId};
          delivered := [Delivery(shipId, sessionId, session.data)];
        } else {
          uplinkSessions := uplinkSessions[shipId := session];
        }
      }
    }

    method OnResourceAllocTimeout(currentSlot: Slot, pick: nat) returns (packets: seq<seq<byte>>)
      requires pick < CHANNELS
      modifies this
      ensures Out(Abs(), packets, [], false) == AllocationTimeout(old(Abs()), currentSlot, pick)
    {
      packets := [];
      if pendingResourceAlloc {
        var diff := (currentSlot - pendingAscSlot + 2250) % 2250;
        if diff > 5 && diff < 2245 {
          pendingResourceAlloc := false;
          return;
        }
        var logicChannel := AllocateDcChannel(pick);
        packets := [AllocationPacket(pendingShipId, logicChannel, pendingSessionId)];
        if pendingShipId in uplinkSessions {
          uplinkSessions := uplinkSessions[pendingShipId := uplinkSessions[pendingShipId].(channel := logicChannel)];
        }
        pendingResourceAlloc := false;
      }
    }

    method ReadMessage(rawMsg: seq<byte>, currentSlot: Slot)
      returns (packets: seq<seq<byte>>, delivered: seq<Delivery>, diverted: bool)
      requires rawMsg != []
      modifies this
      ensures Out(Abs(), packets, delivered, diverted) == Accept(old(Abs()), DecodeUplink(rawMsg), currentSlot)
    {
      packets, delivered, diverted := [], [], false;
      var kind := rawMsg[0];
      if kind == 20 {
        var shipId: u32 := 200000002;
        if |rawMsg| >= 5 {
          shipId := Quad(rawMsg[1..5]);
        }
        var _ := HandleResourceRequest(shipId, currentSlot);
      } else if kind == 30 || kind == 31 || kind == 32 {
        if |rawMsg| < 15 {
          return;
        }
        packets, delivered, diverted :=
          HandleFragmentPacket(kind, Quad(rawMsg[3..7]), rawMsg[8], Pair(rawMsg[13], rawMsg[14]), rawMsg[15..]);
      }
    }

    method ReadUdpData(datagrams: seq<seq<byte>>, currentSlot: Slot)
      returns (packets: seq<seq<byte>>, delivered: seq<Delivery>, diverted: bool)
      modifies this
      ensures Out(Abs(), packets, delivered, diverted) == AcceptAll(old(Abs()), datagrams, currentSlot)
    {
      packets, delivered, diverted := [], [], false;
      ghost var s := Abs();
      for i := 0 to |datagrams|
        invariant Out(Abs(), packets, delivered, diverted) == AcceptAll(s, datagrams[..i], currentSlot)
      {
        assert datagrams[..i + 1][..i] == datagrams[..i];
        var rawMsg := BoardFrame.ParseFrame(datagrams[i]);
        if rawMsg.Some? {
          var p, d, f := ReadMessage(rawMsg.value, currentSlot);
          packets, delivered, diverted := packets + p, delivered + d, diverted || f;
        }
      }
      assert datagrams[..|datagrams|] == datagrams;
    }
  }

  /** The whole path: a fragment framed by the gateway reaches the receiver as that fragment. */
  lemma FramedFragmentArrives(s: Satellite, message: seq<byte>, i: nat, mmsi: u32, session: byte, dest: u32,
                              seqNo: u16, h: BoardFrame.Header, slot: Slot)
    requires i < FragmentCount(message)
    ensures var framed := BoardFrame.Frame(seqNo, h, FragmentPacket(message, i, mmsi, session, dest));
            AcceptAll(s, [framed], slot) == HandleFragmentOf(s, message, i, mmsi, session)
  {
    var packet := FragmentPacket(message, i, mmsi, session, dest);
    var framed := BoardFrame.Frame(seqNo, h, packet);
    BoardFrame.RoundTripIff(seqNo, h, packet);
    FragmentRoundTrip(message, i, mmsi, session, dest);
    var none: seq<seq<byte>> := [];
    assert [framed][..0] == none;
  }
}
