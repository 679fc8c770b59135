/** What the short-message machine accepts, transmits and reports, over every run, read off the
    inputs and the bytes (VdesService/uplinkshortackstatemachine.cpp). */
module ShortReports {
  import opened Bytes
  import opened ShortMessage

  // ---------- What the run says of the machine ----------

  /** The station number set last. */
  function OwnNumber(mmsi: u32, inputs: seq<Input>): u32 {
    if inputs == [] then mmsi
    else if inputs[|inputs| - 1].NewMmsi? then inputs[|inputs| - 1].mmsi
    else OwnNumber(mmsi, inputs[..|inputs| - 1])
  }

  /** The random access messages counted by the latest MAC frame were fewer than three. */
  predicate Allowed(inputs: seq<Input>) {
    if inputs == [] then false
    else if inputs[|inputs| - 1].Mac? then inputs[|inputs| - 1].racCount < 3
    else Allowed(inputs[..|inputs| - 1])
  }

  lemma {:induction false} RunTells(mmsi: u32, inputs: seq<Input>)
    ensures var m := RunAll(mmsi, inputs).m; m.mmsi == OwnNumber(mmsi, inputs) && m.permitted == Allowed(inputs)
  {
    if inputs != [] {
      var n := |inputs| - 1;
      RunTells(mmsi, inputs[..n]);
      StepTells(RunAll(mmsi, inputs[..n]).m, inputs[n]);
    }
  }

  lemma StepTells(m: Machine, input: Input)
    ensures var m' := React(m, input).m;
            && m'.mmsi == (if input.NewMmsi? then input.mmsi else m.mmsi)
            && m'.permitted == (if input.Mac? then input.racCount < 3 else m.permitted)
  {}

  // ---------- Acceptance ----------

  predicate RandomAccess(slot: int) {
    630 <= slot <= 808 || 1350 <= slot <= 1528 || 2070 <= slot <= 2248
  }

  /** A submission is accepted exactly when nothing else is under way, for link 20, and for a
      random access slot that has not passed. */
  lemma AcceptedIff(m: Machine, current: int, slot: int, linkId: int, message: Message)
    ensures var o := React(m, Submitted(current, slot, linkId, message));
            var accepted := m.state == Idle && linkId == 20 && RandomAccess(slot) && current <= slot;
            && (accepted <==> Refused !in o.events)
            && (accepted ==> o.m.state == Wait && o.m.slot == slot && o.m.message == message && o.events == [])
            && (!accepted ==> o == Out(m, [Refused]))
  {
    assert Refused in [Refused];
  }

  // ---------- Transmission ----------

  /** A packet of ten bytes, high byte first. */
  predicate ShortOnAir(p: seq<byte>, sender: int, message: Message) {
    && |p| == 10 && p[0] == 33
    && Value32(p[4], p[3], p[2], p[1]) == sender
    && Value32(p[8], p[7], p[6], p[5]) == message.dest
    && p[9] == message.data
  }

  lemma ShortPacketOnAir(mmsi: u32, message: Message)
    ensures ShortOnAir(ShortPacket(mmsi, message), mmsi, message)
  {}

  /** Over every run: a transmission leaves exactly two slots before the slot of the submission
      accepted last, while its message waits and the latest MAC frame allows it, and carries
      that message under the station number set last. */
  lemma TransmittedIff(mmsi: u32, inputs: seq<Input>, input: Input)
    ensures var m, accepted := RunAll(mmsi, inputs).m, LastAccepted(mmsi, inputs);
            Transmits(m, input)
            <==> m.state == Wait && accepted.Some? && input == Slot(accepted.value.slot - 2) && Allowed(inputs)
    ensures var m, accepted := RunAll(mmsi, inputs).m, LastAccepted(mmsi, inputs);
            NotPermitted in React(m, input).events
            <==> m.state == Wait && accepted.Some? && input == Slot(accepted.value.slot - 2) && !Allowed(inputs)
    ensures forall e :: e in React(RunAll(mmsi, inputs).m, input).events && e.Transmit? ==>
              && LastAccepted(mmsi, inputs).Some? && e.slot == LastAccepted(mmsi, inputs).value.slot
              && ShortOnAir(e.packet, OwnNumber(mmsi, inputs), LastAccepted(mmsi, inputs).value.message)
  {
    var m := RunAll(mmsi, inputs).m;
    AlwaysOrderly(mmsi, inputs);
    RunTells(mmsi, inputs);
    LiveIsLastAccepted(mmsi, inputs);
    TickOutcome(m, input);
  }

  lemma TickOutcome(m: Machine, input: Input)
    requires Sound(m)
    ensures Transmits(m, input) <==> m.state == Wait && input == Slot(m.slot - 2) && m.permitted
    ensures NotPermitted in React(m, input).events <==> m.state == Wait && input == Slot(m.slot - 2) && !m.permitted
    ensures forall e :: e in React(m, input).events && e.Transmit? ==>
              m.state == Wait && e.slot == m.slot && ShortOnAir(e.packet, m.mmsi, m.message)
  {
    TransmitsIff(m, input);
    ShortPacketOnAir(m.mmsi, m.message);
    assert NotPermitted in [NotPermitted];
  }

  // ---------- Reports ----------

  /** An answer to this ship, and whether it confirms. */
  predicate Answers(input: Input, mmsi: int) {
    && input.Packet? && |input.raw| >= 9 && input.raw[0] == 34
    && Value32(input.raw[7], input.raw[6], input.raw[5], input.raw[4]) == mmsi
  }

  predicate Confirmed(input: Input, mmsi: int) {
    Answers(input, mmsi) && input.raw[8] == 0
  }

  /** The attempt under way has failed: no answer in time, or one that refuses. */
  predicate AttemptFails(input: Input, mmsi: int) {
    input.AckExpires? || (Answers(input, mmsi) && input.raw[8] != 0)
  }

  lemma QuadReads(b: seq<byte>)
    requires |b| == 4
    ensures Quad(b) == Value32(b[3], b[2], b[1], b[0])
  {}

  lemma StepReports(m: Machine, input: Input)
    requires Sound(m)
    ensures Finished(true) in React(m, input).events <==> m.state == Send && Confirmed(input, m.mmsi)
    ensures Finished(false) in React(m, input).events
            <==> m.state == Send && m.retry == 2 && AttemptFails(input, m.mmsi)
    ensures m.state == Send && m.retry < 2 && AttemptFails(input, m.mmsi) ==>
              React(m, input) == Out(m.(retry := m.retry + 1, state := Wait), [])
  {
    if input.Packet? && |input.raw| >= 9 {
      QuadReads(input.raw[4..8]);
    }
    assert Finished(true) in [Finished(true)] && Finished(false) in [Finished(false)];
  }

  /** Over every run: success is reported exactly when the message is out and an answer to this
      ship confirms it. */
  lemma SuccessIff(mmsi: u32, inputs: seq<Input>, input: Input)
    ensures var m := RunAll(mmsi, inputs).m;
            Finished(true) in React(m, input).events
            <==> m.state == Send && Confirmed(input, OwnNumber(mmsi, inputs))
  {
    AlwaysOrderly(mmsi, inputs);
    RunTells(mmsi, inputs);
    StepReports(RunAll(mmsi, inputs).m, input);
  }

  /** Failure is reported exactly when it is out for the third time and that attempt fails too. */
  lemma FailureIff(mmsi: u32, inputs: seq<Input>, input: Input)
    ensures var h := RunAll(mmsi, inputs);
            Finished(false) in React(h.m, input).events
            <==> h.m.state == Send && |h.ticks| == 3 && AttemptFails(input, OwnNumber(mmsi, inputs))
  {
    AlwaysOrderly(mmsi, inputs);
    RunTells(mmsi, inputs);
    StepReports(RunAll(mmsi, inputs).m, input);
  }

  /** A first or second failed attempt reports nothing and puts the same message back to wait for
      the same slot. */
  lemma EarlierFailureWaits(mmsi: u32, inputs: seq<Input>, input: Input)
    requires var h := RunAll(mmsi, inputs);
             h.m.state == Send && |h.ticks| < 3 && AttemptFails(input, OwnNumber(mmsi, inputs))
    ensures var h, o := RunAll(mmsi, inputs), React(RunAll(mmsi, inputs).m, input);
            && o.events == [] && o.m.state == Wait && o.m.slot == h.m.slot && o.m.message == h.m.message
            && Record(h, input).ticks == h.ticks
  {
    AlwaysOrderly(mmsi, inputs);
    RunTells(mmsi, inputs);
    StepReports(RunAll(mmsi, inputs).m, input);
    TransmitsIff(RunAll(mmsi, inputs).m, input);
  }

  // ---------- After a failure ----------

  predicate Passive(inputs: seq<Input>) {
    forall i :: 0 <= i < |inputs| ==> !inputs[i].AbnormalExpires? && !inputs[i].NewMmsi?
  }

  lemma {:induction false} StaysAbnormal(mmsi: u32, inputs: seq<Input>, more: seq<Input>)
    requires RunAll(mmsi, inputs).m.state == Abnormal && Passive(more)
    ensures RunAll(mmsi, inputs + more).m.state == Abnormal
  {
    if more == [] {
      assert inputs + more == inputs;
    } else {
      var n := |more| - 1;
      StaysAbnormal(mmsi, inputs, more[..n]);
      assert (inputs + more)[..|inputs + more| - 1] == inputs + more[..n];
    }
  }

  /** After a failure the machine refuses every submission, whatever else happens, until its
      pause ends or its number changes; from then on it accepts as if nothing had been. */
  lemma PausesAfterFailure(mmsi: u32, inputs: seq<Input>, failing: Input, more: seq<Input>, wake: Input,
                           current: int, slot: int, linkId: int, message: Message)
    requires Finished(false) in React(RunAll(mmsi, inputs).m, failing).events && Passive(more)
    requires wake.AbnormalExpires? || wake.NewMmsi?
    ensures var during, next := inputs + [failing] + more, Submitted(current, slot, linkId, message);
            && React(RunAll(mmsi, during).m, next).events == [Refused]
            && (Refused !in React(RunAll(mmsi, during + [wake]).m, next).events
                <==> linkId == 20 && RandomAccess(slot) && current <= slot)
  {
    var during := inputs + [failing] + more;
    AlwaysOrderly(mmsi, inputs);
    StepReports(RunAll(mmsi, inputs).m, failing);
    assert (inputs + [failing])[..|inputs|] == inputs;
    StaysAbnormal(mmsi, inputs + [failing], more);
    AcceptedIff(RunAll(mmsi, during).m, current, slot, linkId, message);
    assert (during + [wake])[..|during|] == during;
    AcceptedIff(RunAll(mmsi, during + [wake]).m, current, slot, linkId, message);
  }

  // ---------- The satellite's answer ----------

  /** Thirty-four bytes: the type, the payload size 31 high byte first, the satellite, the sender
      as its packet names it, no refusal, and an empty mask. */
  lemma ReplyOnAir(raw: seq<byte>)
    ensures ShortReply(raw).Some? <==> |raw| >= 10 && raw[0] == 33
    ensures ShortReply(raw).Some? ==>
              var r := ShortReply(raw).value;
              && |r| == 34 && r[0] == 34 && Value16(r[2], r[1]) == 31 && r[3] == 99
              && r[4..8] == raw[1..5]
              && forall i :: 8 <= i < 34 ==> r[i] == 0
  {}
}
