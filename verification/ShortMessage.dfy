/** Short uplink messages with acknowledgement (VdesService/uplinkshortackstatemachine.cpp):
    one message at a time, at most three transmissions, each two slots before a slot chosen by
    the user and only while the MAC frame permits it. */
module ShortMessage {
  import opened Bytes
  import opened Segments
  import Wire = UplinkWire

  datatype State = Idle | Wait | Send | Abnormal

  const MAX_RETRY: nat := 3
  const RAC_LIMIT: nat := 3
  const SHORT_LINK: int := 20

  datatype Message = Message(dest: u32, data: byte)

  datatype Event =
    | Transmit(slot: int, packet: seq<byte>)
    | Finished(ok: bool)
    | Refused
    | NotPermitted

  datatype Machine = Machine(
    state: State, slot: int, message: Message, pending: bool, retry: nat, permitted: bool, mmsi: u32)

  datatype Out = Out(m: Machine, events: seq<Event>)

  function Initial(mmsi: u32): Machine {
    Machine(Idle, -1, Message(0, 0), false, 0, false, mmsi)
  }

  function ShortPacket(mmsi: u32, message: Message): seq<byte> {
    [33] + BigEndian32(mmsi) + BigEndian32(message.dest) + [message.data]
  }

  // ---------- One function per event ----------

  function Cleared(m: Machine): Machine {
    m.(pending := false, slot := -1, retry := 0)
  }

  predicate Live(m: Machine) {
    m.state in {Wait, Send}
  }

  function SetMmsi(m: Machine, mmsi: u32): Machine {
    if m.state == Idle then m.(mmsi := mmsi) else Cleared(m).(mmsi := mmsi, state := Idle)
  }

  predicate Acceptable(m: Machine, current: int, slot: int, linkId: int) {
    m.state == Idle && linkId == SHORT_LINK && IsRacSlot(slot) && current <= slot
  }

  function SendMessage(m: Machine, current: int, slot: int, linkId: int, message: Message): Out {
    if !Acceptable(m, current, slot, linkId) then Out(m, [Refused])
    else Out(m.(slot := slot, message := message, pending := true, retry := 0, state := Wait), [])
  }

  function SlotTick(m: Machine, current: int): Out {
    if m.state != Wait || current != m.slot - 2 then Out(m, [])
    else if !m.permitted then Out(m, [NotPermitted])
    else Out(m.(state := Send), if m.pending then [Transmit(m.slot, ShortPacket(m.mmsi, m.message))] else [])
  }

  /** The source also compares two more fields of its own, which nothing ever sets. */
  function MacFrame(m: Machine, racCount: nat): Machine {
    m.(permitted := racCount < RAC_LIMIT)
  }

  function Failure(m: Machine): Out {
    if m.retry + 1 < MAX_RETRY then Out(m.(retry := m.retry + 1, state := Wait), [])
    else Out(Cleared(m).(state := Abnormal), [Finished(false)])
  }

  function HandlePacket(m: Machine, raw: seq<byte>): Out {
    if |raw| < 9 || raw[0] != 34 || m.state != Send || Quad(raw[4..8]) != m.mmsi then Out(m, [])
    else if raw[8] == 0 then Out(Cleared(m).(state := Idle), [Finished(true)])
    else Failure(m)
  }

  function AckTimeout(m: Machine): Out {
    if m.state != Send then Out(m, []) else Failure(m)
  }

  function AbnormalTimeout(m: Machine): Machine {
    if m.state != Abnormal then m else Cleared(m).(state := Idle)
  }

  // ---------- In place ----------

  class UplinkShortAckMachine {
    var state: State
    var specifiedSlot: int
    var pendingMsg: Message
    var hasPendingMsg: bool
    var retryCount: nat
    var macFrameAllowed: bool
    var myMmsi: u32

    ghost function Abs(): Machine
      reads this
    {
      Machine(state, specifiedSlot, pendingMsg, hasPendingMsg, retryCount, macFrameAllowed, myMmsi)
    }

    constructor (mmsi: u32)
      ensures Abs() == Initial(mmsi)
    {
      state, specifiedSlot, pendingMsg, hasPendingMsg := Idle, -1, Message(0, 0), false;
      retryCount, macFrameAllowed, myMmsi := 0, false, mmsi;
    }

    method ClearPending()
      modifies this`hasPendingMsg, this`specifiedSlot, this`retryCount
      ensures !hasPendingMsg && specifiedSlot == -1 && retryCount == 0
    {
      hasPendingMsg := false;
      specifiedSlot := -1;
      retryCount := 0;
    }

    method SetMyMmsi(mmsi: u32)
      modifies this
      ensures Abs() == SetMmsi(old(Abs()), mmsi)
    {
      myMmsi := mmsi;
      if state != Idle {
        ClearPending();
        state := Idle;
      }
    }

    method Submit(currentSlot: int, slot: int, linkId: int, msg: Message) returns (ok: bool, events: seq<Event>)
      modifies this
      ensures Out(Abs(), events) == SendMessage(old(Abs()), currentSlot, slot, linkId, msg)
      ensures ok <==> Acceptable(old(Abs()), currentSlot, slot, linkId)
    {
      if state != Idle {
        return false, [Refused];
      }
      if linkId != 20 {
        return false, [Refused];
      }
      if !IsRacSlot(slot) {
        return false, [Refused];
      }
      if currentSlot > slot {
        return false, [Refused];
      }
      specifiedSlot := slot;
      pendingMsg := msg;
      hasPendingMsg := true;
      retryCount := 0;
      state := Wait;
      ok, events := true, [];
    }

    method OnSlot(currentSlot: int) returns (events: seq<Event>)
      modifies this
      ensures Out(Abs(), events) == SlotTick(old(Abs()), currentSlot)
    {
      events := [];
      if state != Wait {
        return;
      }
      if currentSlot == specifiedSlot - 2 {
        if macFrameAllowed {
          events := SendCurrentMessage(specifiedSlot);
          state := Send;
        } else {
          events := [NotPermitted];
        }
      }
    }

    method SendCurrentMessage(slot: int) returns (events: seq<Event>)
      ensures events == if hasPendingMsg then [Transmit(slot, ShortPacket(myMmsi, pendingMsg))] else []
    {
      if !hasPendingMsg {
        return [];
      }
      var srcId := [High(myMmsi / 0x1_0000), Low(myMmsi / 0x1_0000), High(myMmsi % 0x1_0000), Low(myMmsi % 0x1_0000)];
      var dest := pendingMsg.dest;
      var stationId := [High(dest / 0x1_0000), Low(dest / 0x1_0000), High(dest % 0x1_0000), Low(dest % 0x1_0000)];
      assert srcId == BigEndian32(myMmsi) && stationId == BigEndian32(dest);
      events := [Transmit(slot, [33] + srcId + stationId + [pendingMsg.data])];
    }

    method OnMacFrameUpdated(racMessageCount: nat)
      modifies this`macFrameAllowed
      ensures Abs() == MacFrame(old(Abs()), racMessageCount)
    {
      macFrameAllowed := racMessageCount < RAC_LIMIT;
    }

    method ParseUplinkAck(data: seq<byte>) returns (events: seq<Event>)
      requires state == Send
      modifies this
      ensures Out(Abs(), events) == HandlePacket(old(Abs()), data)
      ensures var answers := |data| >= 9 && data[0] == 34
                             && Value32(data[7], data[6], data[5], data[4]) == old(myMmsi);
              && (Finished(true) in events <==> answers && data[8] == 0)
              && (Finished(false) in events <==> answers && data[8] != 0 && old(retryCount) >= 2)
    {
      events := [];
      if |data| < 9 || data[0] != 34 {
        return;
      }
      if Quad(data[4..8]) == myMmsi {
        if data[8] == 0 {
          events := [Finished(true)];
          ClearPending();
          state := Idle;
        } else {
          retryCount := retryCount + 1;
          if retryCount < MAX_RETRY {
            state := Wait;
          } else {
            events := [Finished(false)];
            ClearPending();
            state := Abnormal;
          }
        }
      }
    }

    method OnPacket(packet: seq<byte>) returns (events: seq<Event>)
      modifies this
      ensures Out(Abs(), events) == HandlePacket(old(Abs()), packet)
    {
      events := [];
      if packet != [] && packet[0] == 34 && state == Send {
        events := ParseUplinkAck(packet);
      }
    }

    method OnAckTimeout() returns (events: seq<Event>)
      modifies this
      ensures Out(Abs(), events) == AckTimeout(old(Abs()))
      ensures Finished(true) !in events
      ensures Finished(false) in events <==> old(state) == Send && old(retryCount) >= 2
    {
      events := [];
      if state == Send {
        retryCount := retryCount + 1;
        if retryCount < MAX_RETRY {
          state := Wait;
        } else {
          events := [Finished(false)];
          ClearPending();
          state := Abnormal;
        }
      }
    }

    method OnAbnormalTimeout()
      modifies this
      ensures Abs() == AbnormalTimeout(old(Abs()))
    {
      if state == Abnormal {
        ClearPending();
        state := Idle;
      }
    }
  }

  // ---------- Runs ----------

  datatype Input =
    | Submitted(current: int, slot: int, linkId: int, message: Message)
    | Slot(slot: int)
    | Packet(raw: seq<byte>)
    | Mac(racCount: nat)
    | AckExpires
    | AbnormalExpires
    | NewMmsi(mmsi: u32)

  function React(m: Machine, input: Input): Out {
    match input
    case Submitted(current, slot, linkId, message) => SendMessage(m, current, slot, linkId, message)
    case Slot(slot) => SlotTick(m, slot)
    case Packet(raw) => HandlePacket(m, raw)
    case Mac(racCount) => Out(MacFrame(m, racCount), [])
    case AckExpires => AckTimeout(m)
    case AbnormalExpires => Out(AbnormalTimeout(m), [])
    case NewMmsi(mmsi) => Out(SetMmsi(m, mmsi), [])
  }

  /** The machine with a count of what became of the accepted messages, and the ticks at which
      the latest one was transmitted. */
  datatype History = History(m: Machine, accepted: nat, finished: nat, cancelled: nat, ticks: seq<int>)

  predicate Accepts(m: Machine, input: Input) {
    input.Submitted? && Acceptable(m, input.current, input.slot, input.linkId)
  }

  predicate Finishes(m: Machine, input: Input) {
    Finished(true) in React(m, input).events || Finished(false) in React(m, input).events
  }

  predicate Transmits(m: Machine, input: Input) {
    exists e :: e in React(m, input).events && e.Transmit?
  }

  function Record(h: History, input: Input): History {
    var accepts, sends := Accepts(h.m, input), Transmits(h.m, input);
    History(React(h.m, input).m, h.accepted + One(accepts), h.finished + One(Finishes(h.m, input)),
            h.cancelled + One(input.NewMmsi? && Live(h.m)),
            if accepts then [] else if sends && input.Slot? then h.ticks + [input.slot] else h.ticks)
  }

  function RunAll(mmsi: u32, inputs: seq<Input>): History {
    if inputs == [] then History(Initial(mmsi), 0, 0, 0, [])
    else Record(RunAll(mmsi, inputs[..|inputs| - 1]), inputs[|inputs| - 1])
  }

  predicate Sound(m: Machine) {
    && (m.pending <==> Live(m))
    && (Live(m) ==> IsRacSlot(m.slot) && m.retry < MAX_RETRY)
    && (!Live(m) ==> m.slot == -1 && m.retry == 0)
  }

  /** One transmission per retry and one under way; every accepted message ends in exactly one
      report, unless it is still live or was cancelled by a new station number. */
  predicate Orderly(h: History) {
    && Sound(h.m)
    && (Live(h.m) ==> |h.ticks| == h.m.retry + One(h.m.state == Send))
    && |h.ticks| <= MAX_RETRY
    && (Live(h.m) ==> forall i :: 0 <= i < |h.ticks| ==> h.ticks[i] == h.m.slot - 2)
    && h.accepted == h.finished + h.cancelled + One(Live(h.m))
  }

  /** A transmission happens only while waiting, with permission, two slots before the chosen one. */
  lemma TransmitsIff(m: Machine, input: Input)
    requires Sound(m)
    ensures Transmits(m, input) <==> input == Slot(m.slot - 2) && m.state == Wait && m.permitted
    ensures Transmits(m, input) ==>
              React(m, input) == Out(m.(state := Send), [Transmit(m.slot, ShortPacket(m.mmsi, m.message))])
  {
    if input == Slot(m.slot - 2) && m.state == Wait && m.permitted {
      assert Transmit(m.slot, ShortPacket(m.mmsi, m.message)) in React(m, input).events;
    }
  }

  lemma FinishesIff(m: Machine, input: Input)
    requires Sound(m)
    ensures Finishes(m, input) <==> Live(m) && !Live(React(m, input).m) && !input.NewMmsi?
  {
    var events := React(m, input).events;
    if events != [] {
      assert events[0] in events && |events| == 1;
    }
  }

  lemma StepOrderly(h: History, input: Input)
    requires Orderly(h)
    ensures Orderly(Record(h, input))
  {
    TransmitsIff(h.m, input);
    FinishesIff(h.m, input);
  }

  /** Over every run of submissions, slots, packets, timeouts and station changes. */
  lemma {:induction false} AlwaysOrderly(mmsi: u32, inputs: seq<Input>)
    ensures Orderly(RunAll(mmsi, inputs))
  {
    if inputs != [] {
      AlwaysOrderly(mmsi, inputs[..|inputs| - 1]);
      StepOrderly(RunAll(mmsi, inputs[..|inputs| - 1]), inputs[|inputs| - 1]);
    }
  }

  // ---------- What the satellite reads, and its answer ----------

  datatype ShortText = ShortText(src: u32, dest: u32, data: byte)

  function ReadShort(raw: seq<byte>): Option<ShortText> {
    if |raw| < 10 then None else Some(ShortText(Quad(raw[1..5]), Quad(raw[5..9]), raw[9]))
  }

  lemma ShortRoundTrip(mmsi: u32, message: Message)
    ensures ReadShort(ShortPacket(mmsi, message)) == Some(ShortText(mmsi, message.dest, message.data))
  {
    var raw := ShortPacket(mmsi, message);
    assert raw[1..5] == BigEndian32(mmsi) && raw[5..9] == BigEndian32(message.dest);
    QuadOf(mmsi);
    QuadOf(message.dest);
  }

  /** The submission accepted last in a run, if any. */
  function LastAccepted(mmsi: u32, inputs: seq<Input>): (last: Option<Input>)
    ensures last.Some? ==> last.value.Submitted?
  {
    if inputs == [] then None
    else
      var n := |inputs| - 1;
      if Accepts(RunAll(mmsi, inputs[..n]).m, inputs[n]) then Some(inputs[n]) else LastAccepted(mmsi, inputs[..n])
  }

  /** What a live machine works on. */
  predicate WorksOn(m: Machine, accepted: Option<Input>) {
    accepted.Some? && accepted.value.Submitted? && accepted.value.message == m.message && accepted.value.slot == m.slot
  }

  lemma {:induction false} LiveIsLastAccepted(mmsi: u32, inputs: seq<Input>)
    ensures var m := RunAll(mmsi, inputs).m; Live(m) ==> WorksOn(m, LastAccepted(mmsi, inputs))
  {
    if inputs != [] {
      var n := |inputs| - 1;
      LiveIsLastAccepted(mmsi, inputs[..n]);
      MessageKept(RunAll(mmsi, inputs[..n]).m, inputs[n]);
    }
  }

  lemma MessageKept(m: Machine, input: Input)
    ensures var m' := React(m, input).m;
            Live(m') ==> if Accepts(m, input) then m'.message == input.message && m'.slot == input.slot
                         else Live(m) && m'.message == m.message && m'.slot == m.slot
  {}

  /** In every run: what the satellite reads of a transmission is the message accepted last,
      from this ship. */
  lemma TransmissionsRead(mmsi: u32, inputs: seq<Input>, input: Input, e: Event)
    requires var m := RunAll(mmsi, inputs).m; e in React(m, input).events && e.Transmit?
    ensures var accepted := LastAccepted(mmsi, inputs);
            && accepted.Some?
            && ReadShort(e.packet)
               == Some(ShortText(RunAll(mmsi, inputs).m.mmsi, accepted.value.message.dest, accepted.value.message.data))
  {
    var m := RunAll(mmsi, inputs).m;
    AlwaysOrderly(mmsi, inputs);
    TransmitsIff(m, input);
    LiveIsLastAccepted(mmsi, inputs);
    ShortRoundTrip(m.mmsi, m.message);
  }

  /** The satellite confirms every short message of full length (SatelliteSim/simulator.cpp). */
  function ShortReply(raw: seq<byte>): Option<seq<byte>> {
    if |raw| < 10 || raw[0] != 33 then None
    else Some([34, 0, 31, Wire.SAT_ID] + raw[1..5] + [0] + Zeros(25))
  }

  /** The answer to a transmission ends the wait for it with success, and for no other ship. */
  lemma ReplyConfirms(m: Machine, sender: u32, message: Message)
    requires Sound(m) && m.state == Send
    ensures var reply := ShortReply(ShortPacket(sender, message));
            && reply.Some?
            && HandlePacket(m, reply.value) ==
               if sender == m.mmsi then Out(Cleared(m).(state := Idle), [Finished(true)]) else Out(m, [])
  {
    var raw := ShortPacket(sender, message);
    var reply := ShortReply(raw).value;
    assert raw[1..5] == BigEndian32(sender);
    assert reply[4..8] == BigEndian32(sender);
    QuadOf(sender);
  }
}
