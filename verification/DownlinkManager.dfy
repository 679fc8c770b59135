/** The downlink manager in place: its session map, its set of taken channels and its event
    handlers (SatelliteSim/downlinkmanager.cpp), with the simulator's entry point. */
module DownlinkManager {
  import opened Bytes
  import opened DcChannels
  import opened UplinkWire
  import opened Downlink

  class DownlinkManager {
    var sessions: map<u32, Session>
    var occupiedDcChannels: set<int>

    ghost function Abs(): Manager
      reads this
    {
      Manager(sessions, occupiedDcChannels)
    }

    ghost predicate Valid()
      reads this
    {
      SessionsValid(Abs())
    }

    constructor ()
      ensures Valid() && Abs() == Initial()
    {
      sessions, occupiedDcChannels := map[], {};
    }

    method AllocateDcChannel() returns (channel: int)
      modifies this`occupiedDcChannels
      ensures channel == LeastFree(old(occupiedDcChannels))
      ensures occupiedDcChannels == if channel == -1 then old(occupiedDcChannels)
                                    else old(occupiedDcChannels) + {channel}
    {
      channel := FindFree(occupiedDcChannels);
      if channel != -1 {
        occupiedDcChannels := occupiedDcChannels + {channel};
      }
    }

    method ReleaseDcChannel(logicChannel: int)
      modifies this`occupiedDcChannels
      ensures occupiedDcChannels == Released(old(occupiedDcChannels), logicChannel)
    {
      if logicChannel in occupiedDcChannels {
        occupiedDcChannels := occupiedDcChannels - {logicChannel};
      }
    }

    method CleanupSession(shipId: u32)
      modifies this
      ensures Abs() == Cleanup(old(Abs()), shipId)
    {
      if shipId in sessions {
        ReleaseDcChannel(sessions[shipId].channel);
        sessions := sessions - {shipId};
      }
    }

    method BuildFragmentPacket(shipId: u32, fragmentNum: nat, isStart: bool, isEnd: bool) returns (packet: seq<byte>)
      requires shipId in sessions && fragmentNum < sessions[shipId].Total()
      requires isStart == (fragmentNum == 0) && isEnd == (fragmentNum == sessions[shipId].Total() - 1)
      ensures packet == DownlinkPacket(sessions[shipId].data, fragmentNum, sessions[shipId].id, shipId)
    {
      var session := sessions[shipId];
      var startOffset := fragmentNum * CHUNK;
      var dataSize := Min(CHUNK, |session.data| - startOffset);
      var fragmentData := session.data[startOffset..startOffset + dataSize];
      var kind: byte := if isStart then 30 else if isEnd then 32 else 31;
      packet := [kind] + LittleEndian16(dataSize) + LittleEndian32(SOURCE_ID) + [SAT_ID, session.id]
        + LittleEndian32(shipId) + LittleEndian16(fragmentNum % 0x1_0000) + fragmentData;
    }

    /** The source also gives up when the packet comes out empty; with a live session it has
        a header of fifteen bytes, so that branch is absent. */
    method TransmitFragment(shipId: u32, fragmentNum: nat, currentSlot: int) returns (events: seq<Event>)
      requires shipId in sessions && fragmentNum < sessions[shipId].Total()
      modifies this`sessions
      ensures Out(Abs(), events) == SendFragment(old(Abs()), shipId, fragmentNum, currentSlot)
    {
      var session := sessions[shipId];
      var isStart := fragmentNum == 0;
      var isEnd := fragmentNum == session.Total() - 1;
      var packet := BuildFragmentPacket(shipId, fragmentNum, isStart, isEnd);
      events := [Transmit(shipId, fragmentNum, packet, 0x0A + session.channel, currentSlot + 2)];
      sessions := sessions[shipId := session.(current := fragmentNum)];
    }

    method SendDownlinkMessage(shipId: u32, data: seq<byte>, sessionId: byte, logicChannel: int, currentSlot: int)
      returns (ok: bool, events: seq<Event>)
      modifies this`sessions
      ensures Out(Abs(), events) == SendMessage(old(Abs()), shipId, data, sessionId, logicChannel, currentSlot)
      ensures ok <==> events != [Refused(shipId)]
    {
      if shipId in sessions {
        return false, [Refused(shipId)];
      }
      if data == [] {
        return false, [Refused(shipId)];
      }
      if logicChannel < 0 || logicChannel >= 6 {
        return false, [Refused(shipId)];
      }
      sessions := sessions[shipId := Session(sessionId, logicChannel, data, -1, 0)];
      var sent := TransmitFragment(shipId, 0, currentSlot);
      ok, events := true, [Started(shipId)] + sent;
    }

    /** The simulator's entry (SatelliteSim/simulator.cpp). */
    method SendDownlinkToShip(shipId: u32, data: seq<byte>, sessionId: byte, currentSlot: int)
      returns (events: seq<Event>)
      requires Valid()
      modifies this
      ensures Valid() && Out(Abs(), events) == Send(old(Abs()), shipId, data, sessionId, currentSlot)
    {
      ReactValid(Abs(), SendTo(shipId, data, sessionId, currentSlot));
      var logicChannel := AllocateDcChannel();
      if logicChannel < 0 {
        return [NoChannel];
      }
      var ok;
      ok, events := SendDownlinkMessage(shipId, data, sessionId, logicChannel, currentSlot);
    }

    method RetryFragment(shipId: u32, fragmentNum: nat, currentSlot: int) returns (events: seq<Event>)
      requires shipId in sessions && fragmentNum < sessions[shipId].Total()
      modifies this
      ensures Out(Abs(), events) == Retry(old(Abs()), shipId, fragmentNum, currentSlot)
    {
      var session := sessions[shipId];
      if session.retry + 1 <= MAX_RETRY {
        sessions := sessions[shipId := session.(retry := session.retry + 1)];
        events := TransmitFragment(shipId, fragmentNum, currentSlot);
      } else {
        events := [Failed(shipId, session.id)];
        CleanupSession(shipId);
      }
    }

    /** The search for the first fragment the mask leaves open. */
    method FirstMissing(bits: seq<bool>, total: nat) returns (i: nat)
      ensures i == MissingFrom(bits, total, 0)
    {
      i := 0;
      while i < total && Confirmed(bits, i)
        invariant 0 <= i <= total && MissingFrom(bits, total, i) == MissingFrom(bits, total, 0)
      {
        i := i + 1;
      }
    }

    /** `undefined` is what the comparison yields when the shift exceeds the int. */
    method HandleDownlinkAck(data: seq<byte>, undefined: bool, currentSlot: int) returns (events: seq<Event>)
      requires Valid()
      modifies this
      ensures Valid() && Out(Abs(), events) == HandleAckPacket(old(Abs()), data, undefined, currentSlot)
    {
      events := [];
      if |data| < 10 || data[0] != 29 {
        return;
      }
      ReactValid(Abs(), Mask(data, undefined, currentSlot));
      var shipId := LittleQuad(data[2..6]);
      var bits := ByteBits(data[9]) + ByteBits(data[8]) + ByteBits(data[7]);
      if shipId in sessions {
        events := HandleBits(shipId, bits, undefined, currentSlot);
      }
    }

    method HandleBits(shipId: u32, bits: seq<bool>, undefined: bool, currentSlot: int) returns (events: seq<Event>)
      requires shipId in sessions
      modifies this
      ensures Out(Abs(), events) == HandleMask(old(Abs()), AckMask(shipId, bits), undefined, currentSlot)
    {
      events := [];
      var session := sessions[shipId];
      var missing := FirstMissing(bits, session.Total());
      var complete := if session.Total() <= SHIFT_LIMIT then missing == session.Total() else undefined;
      if complete {
        events := [Completed(shipId, session.id)];
        CleanupSession(shipId);
      } else if missing < session.Total() {
        events := RetryFragment(shipId, missing, currentSlot);
      }
    }

    method OnSendTimeout(shipId: u32, currentSlot: int) returns (events: seq<Event>)
      requires Valid()
      modifies this
      ensures Valid() && Out(Abs(), events) == SendTimeout(old(Abs()), shipId, currentSlot)
    {
      events := [];
      if shipId in sessions {
        ReactValid(Abs(), Expire(shipId, currentSlot));
        events := RetryFragment(shipId, sessions[shipId].current, currentSlot);
      }
    }
  }
}
