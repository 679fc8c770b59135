/** What the satellite's uplink side hears and what it answers, over every run, read off the
    bytes (SatelliteSim/simulator.cpp). */
module SatelliteOutcomes {
  import opened Bytes
  import opened UplinkWire
  import opened UplinkSatellite
  import opened UplinkChannels
  import opened DcChannels
  import opened SlotClock
  import opened Allocation

  // ---------- Messages, byte by byte ----------

  /** A resource request counts from its first byte on; too short to name its ship, it counts as
      one of ship 200000002.  Fragments need fifteen bytes. */
  lemma HeardAs(raw: seq<byte>)
    ensures DecodeUplink(raw).Request? <==> raw != [] && raw[0] == 20
    ensures DecodeUplink(raw).Request? ==>
              DecodeUplink(raw).ship == if |raw| < 5 then 200000002 else Value32(raw[4], raw[3], raw[2], raw[1])
    ensures DecodeUplink(raw).Fragment? <==> |raw| >= 15 && 30 <= raw[0] <= 32
    ensures DecodeUplink(raw).Fragment? ==>
              var u := DecodeUplink(raw);
              && u.kind == raw[0] && u.ship == Value32(raw[6], raw[5], raw[4], raw[3]) && u.session == raw[8]
              && u.num == Value16(raw[14], raw[13]) && u.data == raw[15..]
  {}

  /** An allocation for one ship: the channel, a link id and the session id. */
  predicate AllocationOnAir(p: seq<byte>, ship: int, channel: int, session: byte) {
    && |p| == 11 && p[0] == 12 && Value16(p[2], p[1]) == 8
    && Value32(p[6], p[5], p[4], p[3]) == ship
    && p[7] == channel && p[8] == (20 + session) % 256 && p[9] == session && p[10] == 100
  }

  /** An acknowledgement: no reallocation, and an empty mask. */
  predicate AckOnAir(p: seq<byte>, ship: int, session: byte) {
    && |p| == 35 && p[0] == 13 && p[1] == 99
    && Value32(p[5], p[4], p[3], p[2]) == ship
    && p[6] == session && p[7] == 0 && p[8] == 100 && p[9] == 0
    && forall i :: 10 <= i < 35 ==> p[i] == 0
  }

  lemma AllocationPacketOnAir(ship: u32, channel: byte, session: byte)
    ensures AllocationOnAir(AllocationPacket(ship, channel, session), ship, channel, session)
  {}

  lemma AckPacketOnAir(ship: u32, session: byte)
    ensures AckOnAir(AckPacket(ship, session), ship, session)
  {}

  // ---------- What the run says of the satellite ----------

  /** The latest request heard, as long as the allocation timer has not fired since. */
  function Waiting(events: seq<Event>): (e: Option<Event>)
    ensures e.Some? ==> e.value.Heard? && e.value.u.Request?
  {
    if events == [] then None
    else
      var last := events[|events| - 1];
      if last.Heard? && last.u.Request? then Some(last)
      else if last.AllocationTimer? then None
      else Waiting(events[..|events| - 1])
  }

  /** The session ids given away so far, to requests and to downlink messages. */
  function Ids(events: seq<Event>): nat {
    if events == [] then 0
    else
      var last := events[|events| - 1];
      Ids(events[..|events| - 1]) + if last.DownlinkId? || (last.Heard? && last.u.Request?) then 1 else 0
  }

  predicate WaitsFor(s: Satellite, waiting: Option<Event>) {
    && (s.pending <==> waiting.Some?)
    && (waiting.Some? ==>
          && waiting.value.Heard? && waiting.value.u.Request?
          && s.pendingShip == waiting.value.u.ship
          && s.pendingSlot == Plus(waiting.value.slot, SlotsToAsc(waiting.value.slot)))
  }

  lemma StepTells(s: Satellite, e: Event, waiting: Option<Event>)
    requires Possible(e) && WaitsFor(s, waiting)
    ensures var o := Happen(s, e);
            && WaitsFor(o.s, if e.Heard? && e.u.Request? then Some(e) else if e.AllocationTimer? then None else waiting)
            && o.s.nextId == (if e.DownlinkId? || (e.Heard? && e.u.Request?) then (s.nextId + 1) % 256 else s.nextId)
  {}

  lemma {:induction false} WaitingTells(events: seq<Event>)
    requires AllPossible(events)
    ensures WaitsFor(After(events), Waiting(events))
  {
    if events != [] {
      var n := |events| - 1;
      WaitingTells(events[..n]);
      StepTells(After(events[..n]), events[n], Waiting(events[..n]));
    }
  }

  /** Ids are given away in turn, from 1 on and around. */
  lemma {:induction false} IdsInTurn(events: seq<Event>)
    requires AllPossible(events)
    ensures After(events).nextId == (1 + Ids(events)) % 256
  {
    if events != [] {
      var n := |events| - 1;
      IdsInTurn(events[..n]);
      WaitingTells(events[..n]);
      StepTells(After(events[..n]), events[n], Waiting(events[..n]));
    }
  }

  // ---------- What it answers, and when ----------

  /** At most five slots apart, either way around the frame. */
  predicate Near(slot: int, target: int) {
    -5 <= slot - target <= 5 || -5 <= slot - target + 2250 <= 5 || -5 <= slot - target - 2250 <= 5
  }

  /** The allocation timer answers the latest request when it fires near the next ASC slot
      after the slot of that request. */
  predicate Answers(waiting: Option<Event>, e: Event) {
    && e.AllocationTimer? && waiting.Some? && waiting.value.Heard?
    && Near(e.slot, waiting.value.slot + SlotsToAsc(waiting.value.slot))
  }

  lemma NearIsGuard(slot: Slot, asked: Slot, wait: nat)
    requires wait <= 721
    ensures WithinGuard(slot, Plus(asked, wait)) <==> Near(slot, asked + wait)
  {
    PlusByCases(asked, wait);
    LagByCases(Plus(asked, wait), slot);
    assert WithinGuard(slot, Plus(asked, wait)) <==> !(5 < Lag(Plus(asked, wait), slot) < 2245);
  }

  /** Over every run: a packet leaves exactly when the timer answers a request, and then it gives
      the ship of that request the lowest free channel, or when a message is complete, and then
      it acknowledges the session. */
  lemma AnsweredIff(events: seq<Event>, e: Event)
    requires AllPossible(events) && Possible(e)
    ensures var s, o, waiting := After(events), Happen(After(events), e), Waiting(events);
            && (o.packets != [] <==> Answers(waiting, e) || o.delivered != [])
            && (Answers(waiting, e) ==>
                  |o.packets| == 1
                  && AllocationOnAir(o.packets[0], waiting.value.u.ship, ChannelFor(s.occupied, e.pick), s.pendingId))
            && forall d :: d in o.delivered ==>
                 o.delivered == [d] && |o.packets| == 1 && AckOnAir(o.packets[0], d.ship, d.session)
  {
    var s, waiting := After(events), Waiting(events);
    WaitingTells(events);
    if e.AllocationTimer? {
      TimerAnswers(s, e, waiting);
    } else if e.Heard? && e.u.Fragment? {
      AckPacketOnAir(e.u.ship, e.u.session);
    }
  }

  lemma TimerAnswers(s: Satellite, e: Event, waiting: Option<Event>)
    requires e.AllocationTimer? && Possible(e) && WaitsFor(s, waiting)
    ensures var o := Happen(s, e);
            && o.delivered == [] && (o.packets != [] <==> Answers(waiting, e))
            && (Answers(waiting, e) ==>
                  |o.packets| == 1
                  && AllocationOnAir(o.packets[0], waiting.value.u.ship, ChannelFor(s.occupied, e.pick), s.pendingId))
  {
    if waiting.Some? {
      NearIsGuard(e.slot, waiting.value.slot, SlotsToAsc(waiting.value.slot));
      AllocationPacketOnAir(s.pendingShip, ChannelFor(s.occupied, e.pick), s.pendingId);
    }
  }

  // ---------- What becomes of a fragment ----------

  /** Its data does not start with FF FE, and its ship has a session under its id. */
  predicate Counts(s: Satellite, u: Uplink) {
    && u.Fragment? && !(|u.data| >= 2 && u.data[0] == 0xFF && u.data[1] == 0xFE)
    && u.ship in s.sessions && s.sessions[u.ship].id == u.session
  }

  /** A start replaces what the session held; any other fragment has to bear the number the
      session waits for, or the session is over; an end completes it, and what is handed on is
      what it held and the end's own data.  Sessions of other ships are left alone, and a
      fragment that does not count changes nothing at all. */
  lemma FragmentOutcome(s: Satellite, u: Uplink, slot: Slot)
    requires u.Fragment?
    ensures !Counts(s, u) ==> Accept(s, u, slot).s == s && Accept(s, u, slot).delivered == []
    ensures Counts(s, u) ==>
              var o, held := Accept(s, u, slot), s.sessions[u.ship];
              var fits := u.kind == 30 || u.num == held.expected;
              && (u.ship in o.s.sessions <==> fits && u.kind != 32)
              && o.delivered == (if fits && u.kind == 32 then [Delivery(u.ship, u.session, held.data + u.data)] else [])
              && (fits && u.kind != 32 ==>
                    && o.s.sessions[u.ship].data == (if u.kind == 30 then u.data else held.data + u.data)
                    && o.s.sessions[u.ship].expected == (if u.kind == 30 then 1 else held.expected + 1)
                    && o.s.sessions[u.ship].id == held.id && o.s.sessions[u.ship].channel == held.channel)
              && o.s.sessions - {u.ship} == s.sessions - {u.ship}
  {}
}
