/** Exactly when taking up a session id can end in a false success: for every run and every
    take-up, settled or not. */
module UplinkTakeUps {
  import opened Bytes
  import opened UplinkWire
  import opened UplinkShip
  import opened UplinkSystem
  import opened UplinkMixture
  import opened Segments
  import Sat = UplinkSatellite
  import DcChannels
  import Clock = SlotClock

  // ---------- What a run can lead to ----------

  predicate Extends(run: Run, at: Run) {
    run == at || (run.Then? && Extends(run.before, at))
  }

  /** A property that every step keeps. */
  ghost predicate Closed(P: System -> bool) {
    forall g: System, step: Step :: Sound(g.ship) && P(g) && Enabled(g, step) ==> P(Apply(g, step))
  }

  /** Some steps lead from one state to the other: whatever every step keeps passes from the
      one to the other.  Stated this way, runs can be put together without looking into them. */
  ghost predicate Leads(g: System, g': System) {
    forall P: System -> bool :: Closed(P) && P(g) ==> P(g')
  }

  lemma LeadsStep(g: System, step: Step)
    requires Sound(g.ship) && Enabled(g, step)
    ensures Leads(g, Apply(g, step))
  {}

  lemma LeadsOn(g: System, mid: System, g': System)
    requires Leads(g, mid) && Leads(mid, g')
    ensures Leads(g, g')
  {}

  /** A state led to is the end of a run. */
  lemma RunTo(at: Run, g: System) returns (run: Run)
    requires Leads(at.End(), g)
    ensures Extends(run, at) && run.End() == g
  {
    var P: System -> bool := s => exists r: Run :: Extends(r, at) && r.End() == s;
    assert Extends(at, at);
    forall s: System, step: Step | Sound(s.ship) && P(s) && Enabled(s, step) ensures P(Apply(s, step)) {
      var r: Run :| Extends(r, at) && r.End() == s;
      assert Extends(Then(r, step), at) && Then(r, step).End() == Apply(s, step);
    }
    assert Closed(P);
    run :| Extends(run, at) && run.End() == g;
  }

  // ---------- What holds in every run ----------

  ghost predicate GrantsFit(p: seq<byte>) {
    forall k :: 0 <= k < |DecodeAllocation(p)| ==> DecodeAllocation(p)[k].channel < 6
  }

  /** What the satellite sends to the ship. */
  ghost predicate FromSatellite(p: seq<byte>) {
    GrantsFit(p) && forall id :: AckUnder(p, id) ==> p == AckPacket(MY_MMSI, id)
  }

  /** The session under way is the last one taken up, under a channel the satellite has. */
  ghost predicate LastOne(g: System) {
    Active(g.ship) ==>
      && g.ship.channel < 6 && g.taken != [] && g.taken[|g.taken| - 1] == Session(g.ship.session, g.ship.message)
      && g.ship.session in g.latest && g.latest[g.ship.session] == |g.taken| - 1
  }

  ghost predicate Shape(g: System) {
    && Sound(g.ship) && g.ship.mmsi == MY_MMSI && LastOne(g)
    && (forall id :: id in g.latest ==> g.latest[id] < |g.taken|)
    && (forall n :: n in g.completed || n in g.reported ==> n < |g.taken|)
    && (forall p :: p in g.toShip ==> FromSatellite(p))
  }

  lemma {:induction false} GrantedFits(m: Machine, gs: seq<Grant>)
    requires forall k :: 0 <= k < |gs| ==> gs[k].channel < 6
    requires Active(m) ==> m.channel < 6
    ensures Active(GrantedAll(m, gs)) ==> GrantedAll(m, gs).channel < 6
  {
    if gs != [] {
      GrantedFits(m, gs[..|gs| - 1]);
    }
  }

  lemma ShipChannel(m: Machine, input: Input)
    requires Sound(m) && (Active(m) ==> m.channel < 6) && (input.Packet? ==> GrantsFit(input.raw))
    ensures Active(React(m, input).m) ==> React(m, input).m.channel < 6
  {
    match input
    case Packet(raw) =>
      GrantedFits(m, DecodeAllocation(raw));
      var m' := GrantedAll(m, DecodeAllocation(raw));
      if Active(m') && raw != [] && raw[0] == 13 && DecodeAck(raw).Some? {
        AckKeepsSession(m', DecodeAck(raw).value);
      }
    case Slot(slot) =>
      if m.state == Send && InDcChannel(m.channel, slot) {
        SendNextEvent(m, slot);
      }
    case _ =>
  }

  lemma ShipShape(g: System, input: Input)
    requires Shape(g) && (input.Packet? ==> input.raw in g.toShip || ForeignToShip(input.raw))
    ensures Shape(ShipStep(g, input))
  {
    ShipEffects(g.ship, input);
    ShipChannel(g.ship, input);
  }

  lemma OneGrant(s: Sat.Satellite, slot: Clock.Slot, pick: nat, p: seq<byte>)
    requires pick < DcChannels.CHANNELS && p in Sat.AllocationTimeout(s, slot, pick).packets
    ensures FromSatellite(p)
  {
    var c := Sat.ChannelFor(s.occupied, pick);
    assert p == AllocationPacket(s.pendingShip, c, s.pendingId);
    AllocationRoundTrip(s.pendingShip, c, s.pendingId);
    assert p[0] == 12;
  }

  lemma OneAck(ship: u32, id: byte)
    ensures FromSatellite(AckPacket(ship, id))
  {
    AckRoundTrip(ship, id);
    assert AckPacket(ship, id)[0] == 13;
  }

  lemma SatelliteSends(g: System, step: Step, p: seq<byte>)
    requires Enabled(g, step) && p in SatelliteOut(g, step).packets
    ensures FromSatellite(p)
  {
    if step.AllocationTimer? {
      OneGrant(g.sat, step.slot, step.pick, p);
    } else {
      var id, ship := AckSentFor(g, step, p);
      OneAck(ship, id);
    }
  }

  lemma AckSentFor(g: System, step: Step, p: seq<byte>) returns (id: byte, ship: u32)
    requires Enabled(g, step) && !step.AllocationTimer? && p in SatelliteOut(g, step).packets
    ensures p == AckPacket(ship, id)
  {
    var u := DecodeUplink(step.raw);
    id, ship := u.session, u.ship;
  }

  lemma SatelliteShape(g: System, step: Step)
    requires Shape(g) && Enabled(g, step)
    ensures Shape(SatelliteStep(g, SatelliteOut(g, step)))
  {
    var o := SatelliteOut(g, step);
    forall p | p in o.packets ensures FromSatellite(p) {
      SatelliteSends(g, step, p);
    }
  }

  lemma StepShape(g: System, step: Step)
    requires Shape(g) && Enabled(g, step)
    ensures Shape(Apply(g, step))
  {
    if step.Ship? {
      ShipShape(g, step.input);
    } else if step.ToShip? {
      ShipShape(g, Packet(step.raw));
    } else if !step.Drop? {
      SatelliteShape(g, step);
    }
  }

  lemma {:induction false} AlwaysShape(run: Run)
    ensures Shape(run.End())
  {
    if run.Then? {
      AlwaysShape(run.before);
      if Enabled(run.before.End(), run.step) {
        StepShape(run.before.End(), run.step);
      }
    }
  }

  // ---------- A session, from its take-up to its report ----------

  /** The fragments on their way to the satellite under the id. */
  function InFlight(g: System, id: byte): set<Uplink> {
    set p | p in g.toSat && FragmentUnder(p, id) :: DecodeUplink(p)
  }

  /** How far the satellite is under the id. */
  function HeldNow(s: Sat.Satellite, id: byte): Progress {
    if MY_MMSI in s.sessions && s.sessions[MY_MMSI].id == id then
      Waiting(s.sessions[MY_MMSI].expected, s.sessions[MY_MMSI].data)
    else Fresh()
  }

  /** Session `n`, with what was held and in flight under its id when it was taken up. */
  datatype TakeUp = TakeUp(id: byte, message: seq<byte>, n: nat, held: Progress, stale: set<Uplink>) {
    ghost predicate CanReach(p: Progress) {
      Reached(p, held, stale, message, id)
    }

    ghost predicate CanMix() {
      Mixable(held, stale, message, id)
    }
  }

  /** While the session lasts. */
  ghost predicate During(g: System, t: TakeUp) {
    && t.id in g.latest && g.latest[t.id] == t.n
    && (forall p :: p in g.toSat && FragmentUnder(p, t.id) ==> Available(DecodeUplink(p), t.stale, t.message, t.id))
    && t.CanReach(HeldNow(g.sat, t.id))
    && (forall p :: p in g.toShip && AckUnder(p, t.id) ==> t.n in g.completed)
  }

  ghost predicate Confined(g: System, t: TakeUp) {
    && |g.taken| > t.n && g.taken[t.n] == Session(t.id, t.message)
    && (t.n in g.reported ==> t.n in g.completed)
    && (|g.taken| == t.n + 1 ==> During(g, t))
  }

  /** A report of session `n` needs an acknowledgement under its id. */
  lemma ReportConfined(g: System, t: TakeUp, input: Input)
    requires Shape(g) && Confined(g, t) && (input.Packet? ==> input.raw in g.toShip || ForeignToShip(input.raw))
    ensures t.n in ShipStep(g, input).reported ==> t.n in g.completed
  {
    if Finished(true, Acknowledged) in React(g.ship, input).events {
      SuccessNeedsAck(g.ship, input);
      assert AckUnder(input.raw, g.ship.session);
    }
  }

  lemma PacketsConfined(g: System, t: TakeUp, input: Input, p: seq<byte>)
    requires Sound(g.ship) && g.ship.mmsi == MY_MMSI && LastOne(g)
    requires |g.taken| == t.n + 1 && g.taken[t.n] == Session(t.id, t.message)
    requires p in PacketsOf(React(g.ship, input).events) && FragmentUnder(p, t.id)
    ensures Available(DecodeUplink(p), t.stale, t.message, t.id)
  {
    ShipPackets(g.ship, input, p);
  }

  lemma ShipConfined(g: System, t: TakeUp, input: Input)
    requires Shape(g) && Confined(g, t) && (input.Packet? ==> input.raw in g.toShip || ForeignToShip(input.raw))
    ensures Confined(ShipStep(g, input), t)
  {
    var g' := ShipStep(g, input);
    ReportConfined(g, t, input);
    if |g'.taken| == t.n + 1 {
      forall p | p in PacketsOf(React(g.ship, input).events) && FragmentUnder(p, t.id)
        ensures Available(DecodeUplink(p), t.stale, t.message, t.id)
      {
        PacketsConfined(g, t, input, p);
      }
    }
  }

  /** What a step of the satellite can change under the id. */
  lemma SatelliteReaches(g: System, t: TakeUp, step: Step)
    requires During(g, t) && Enabled(g, step)
    ensures var o := SatelliteOut(g, step);
            && t.CanReach(HeldNow(o.s, t.id))
            && forall d :: d in o.delivered && d.ship == MY_MMSI && d.session == t.id ==> t.CanReach(Delivered(d.data))
  {
    ReachedStart(t.held, t.stale, t.message, t.id);
    if step.ToSatellite? && FragmentUnder(step.raw, t.id) {
      var u, p := DecodeUplink(step.raw), HeldNow(g.sat, t.id);
      if Tracks(g.sat, t.id, p) {
        FeedIsAccept(g.sat, t.id, p, u, step.slot);
        ReachedNext(p, u, t.held, t.stale, t.message, t.id);
      } else {
        NoSessionNoEffect(g.sat, u, step.slot);
      }
    } else {
      OtherStep(g, t.id, step);
    }
  }

  lemma OtherStep(g: System, id: byte, step: Step)
    requires Enabled(g, step) && !(step.ToSatellite? && FragmentUnder(step.raw, id))
    ensures var o := SatelliteOut(g, step);
            && HeldNow(o.s, id) in {HeldNow(g.sat, id), Fresh()}
            && forall d :: d in o.delivered ==> !(d.ship == MY_MMSI && d.session == id)
  {}

  /** Acknowledgements only go out with a delivery. */
  lemma AckOfSatellite(g: System, step: Step, p: seq<byte>, id: byte)
    requires Enabled(g, step) && p in SatelliteOut(g, step).packets && AckUnder(p, id)
    ensures exists d :: d in SatelliteOut(g, step).delivered && d.ship == MY_MMSI && d.session == id
  {
    if !step.AllocationTimer? {
      var u := DecodeUplink(step.raw);
      AckRoundTrip(u.ship, u.session);
      assert SatelliteOut(g, step).delivered[0] in SatelliteOut(g, step).delivered;
    }
  }

  lemma SatelliteConfined(g: System, t: TakeUp, step: Step)
    requires Confined(g, t) && Enabled(g, step) && !t.CanMix()
    ensures Confined(SatelliteStep(g, SatelliteOut(g, step)), t)
  {
    var o := SatelliteOut(g, step);
    var g' := SatelliteStep(g, o);
    if |g.taken| == t.n + 1 {
      SatelliteReaches(g, t, step);
      forall p | p in o.packets && AckUnder(p, t.id) ensures t.n in g'.completed {
        AckOfSatellite(g, step, p, t.id);
        var d :| d in o.delivered && d.ship == MY_MMSI && d.session == t.id;
        assert Completes(g, d);
      }
    }
  }

  lemma StepConfined(g: System, t: TakeUp, step: Step)
    requires Shape(g) && Confined(g, t) && Enabled(g, step) && !t.CanMix()
    ensures Confined(Apply(g, step), t)
  {
    if step.Ship? {
      ShipConfined(g, t, step.input);
    } else if step.ToShip? {
      ShipConfined(g, t, Packet(step.raw));
    } else if !step.Drop? {
      SatelliteConfined(g, t, step);
    }
  }

  lemma {:induction false} StaysConfined(run: Run, at: Run, t: TakeUp)
    requires Extends(run, at) && Confined(at.End(), t) && !t.CanMix()
    ensures Confined(run.End(), t)
  {
    if run != at {
      StaysConfined(run.before, at, t);
      AlwaysShape(run.before);
      if Enabled(run.before.End(), run.step) {
        StepConfined(run.before.End(), t, run.step);
      }
    }
  }

  // ---------- The ship sends what it has left, heard or not ----------

  /** The ship alone moved. */
  predicate ShipMoved(g: System, g': System) {
    && g' == g.(ship := g'.ship, toSat := g'.toSat) && g.toSat <= g'.toSat
    && SameSession(g.ship, g'.ship) && ToIdle(g'.ship) == ToIdle(g.ship) && Sound(g'.ship)
  }

  lemma ChannelHasSlot(channel: int) returns (slot: int)
    requires 0 <= channel < 6
    ensures InDcChannel(channel, slot)
  {
    slot := if channel == 0 then 180 else if channel == 1 then 210 else if channel == 2 then 300
            else if channel == 3 then 390 else if channel == 4 then 480 else 570;
  }

  function OwnPacket(m: Machine, j: nat): seq<byte>
    requires j < FragmentCount(m.message)
  {
    FragmentPacket(m.message, j, m.mmsi, m.session, m.dest)
  }

  predicate NoneAcked(m: Machine) {
    forall k :: 0 <= k < |m.pieces| ==> !m.pieces[k].acked
  }

  lemma SendShrinks(m: Machine, slot: int)
    requires m.state == Send && Sound(m) && InDcChannel(m.channel, slot)
    ensures var o := SlotTick(m, slot);
            && SameSession(m, o.m) && ToIdle(o.m) == ToIdle(m) && Sound(o.m)
            && Finished(true, Acknowledged) !in o.events
            && (o.m.state == WaitAck || (o.m.state == Send && |o.m.pieces| < |m.pieces|))
  {
    SendNextEvent(m, slot);
    DropAckedSuffix(m.pieces, m.message);
  }

  lemma SendsFront(m: Machine, slot: int)
    requires m.state == Send && Sound(m) && InDcChannel(m.channel, slot) && NoneAcked(m) && m.pieces != []
    ensures var o, j := SlotTick(m, slot), m.total - |m.pieces|;
            && o.m.pieces == m.pieces[1..] && NoneAcked(o.m) && j < FragmentCount(m.message)
            && PacketsOf(o.events) == {OwnPacket(m, j)}
  {
    assert DropAcked(m.pieces) == m.pieces;
    var o := SlotTick(m, slot);
    assert |o.events| == 1 && o.events[0].Sent? && o.events[0] in o.events;
  }

  /** Everything still listed gets into flight. */
  ghost predicate AllOut(m: Machine, g': System)
    requires Sound(m)
  {
    Active(m) && NoneAcked(m) ==>
      forall j :: m.total - |m.pieces| <= j < m.total ==> OwnPacket(m, j) in g'.toSat
  }

  /** One slot of the ship's channel. */
  lemma SilentStep(g: System, slot: int) returns (g': System)
    requires Sound(g.ship) && g.ship.state == Send && InDcChannel(g.ship.channel, slot)
    ensures Leads(g, g') && ShipMoved(g, g') && g'.toSat == g.toSat + PacketsOf(SlotTick(g.ship, slot).events)
    ensures g'.ship == SlotTick(g.ship, slot).m
  {
    g' := Apply(g, Ship(Slot(slot)));
    LeadsStep(g, Ship(Slot(slot)));
    SendShrinks(g.ship, slot);
  }

  lemma AllOutNext(m: Machine, slot: int, g1: System, g': System)
    requires m.state == Send && Sound(m) && InDcChannel(m.channel, slot) && Sound(g1.ship)
    requires g1.ship == SlotTick(m, slot).m && PacketsOf(SlotTick(m, slot).events) <= g1.toSat <= g'.toSat
    requires if g1.ship.state == Send then AllOut(g1.ship, g') else true
    ensures AllOut(m, g')
  {
    if NoneAcked(m) && m.pieces != [] {
      SendsFront(m, slot);
      SendShrinks(m, slot);
      var j0 := m.total - |m.pieces|;
      forall j | j0 <= j < m.total ensures OwnPacket(m, j) in g'.toSat {
        if j == j0 {
          assert OwnPacket(m, j) in PacketsOf(SlotTick(m, slot).events);
        } else {
          assert OwnPacket(g1.ship, j) in g'.toSat;
        }
      }
    }
  }

  /** The ship sends every fragment it has left; the satellite need not hear any of them. */
  lemma {:induction false} SendAll(g: System) returns (g': System)
    requires Sound(g.ship) && Active(g.ship) && g.ship.channel < 6
    ensures Leads(g, g') && ShipMoved(g, g') && g'.ship.state == WaitAck && AllOut(g.ship, g')
    decreases |g.ship.pieces|
  {
    g' := g;
    if g.ship.state == Send {
      var slot := ChannelHasSlot(g.ship.channel);
      var sent := SilentStep(g, slot);
      SendShrinks(g.ship, slot);
      g' := sent;
      if sent.ship.state == Send {
        g' := SendAll(sent);
        LeadsOn(g, sent, g');
      }
      AllOutNext(g.ship, slot, sent, g');
    }
  }

  /** The acknowledgement arrived: the message is reported as sent. */
  function Reported(g: System): System
    requires g.taken != []
  {
    g.(ship := ToIdle(g.ship), reported := g.reported + {|g.taken| - 1})
  }

  lemma AckStep(g: System, raw: seq<byte>)
    requires Sound(g.ship) && g.ship.state == WaitAck && g.taken != []
    requires Receive(g.ship, raw) == Ended(g.ship, true, Acknowledged)
    ensures ShipStep(g, Packet(raw)) == Reported(g)
  {
    var events := [Finished(true, Acknowledged)];
    assert Finished(true, Acknowledged) in events;
    assert PacketsOf(events) == {};
  }

  /** An acknowledgement arrives when nothing is left to send. */
  lemma Acknowledge(g: System)
    requires Sound(g.ship) && g.ship.state == WaitAck && g.taken != []
    requires AckPacket(MY_MMSI, g.ship.session) in g.toShip
    ensures Leads(g, Reported(g))
  {
    var raw := AckPacket(MY_MMSI, g.ship.session);
    SatelliteAckMeansAllSent(g.ship, g.ship.session);
    LeadsStep(g, ToShip(raw));
    AckStep(g, raw);
  }

  // ---------- The satellite hears any available fragments ----------

  lemma Unheard(g: System, s: Sat.Satellite)
    ensures SatelliteStep(g, Sat.Quiet(s)) == g.(sat := s)
  {}

  lemma TakeOneId(g: System)
    requires Sound(g.ship)
    ensures Leads(g, g.(sat := Sat.TakeId(g.sat)))
  {
    LeadsStep(g, DownlinkSend);
    Unheard(g, Sat.TakeId(g.sat));
  }

  /** Downlink messages use up the ids until the wanted one comes again. */
  lemma {:induction false} Wrap(g: System, id: byte, d: nat)
    requires Sound(g.ship) && g.sat.nextId + d in {id, id + 256}
    ensures Leads(g, g.(sat := g.sat.(nextId := id)))
    decreases d
  {
    var wrapped := g.(sat := g.sat.(nextId := id));
    if d == 0 {
      assert wrapped == g;
    } else {
      var next := g.(sat := Sat.TakeId(g.sat));
      TakeOneId(g);
      IdComesNearer(g.sat, id, d);
      Wrap(next, id, d - 1);
      LeadsOn(g, next, wrapped);
    }
  }

  lemma IdComesNearer(s: Sat.Satellite, id: byte, d: nat)
    requires d > 0 && s.nextId + d in {id, id + 256}
    ensures Sat.TakeId(s).nextId + (d - 1) in {id, id + 256}
  {}

  /** A request from somewhere opens the session under the wanted id. */
  lemma Reopen(g: System, id: byte) returns (g': System)
    requires Sound(g.ship)
    ensures Leads(g, g') && g' == g.(sat := g'.sat) && Tracks(g'.sat, id, Fresh())
  {
    var next: int := g.sat.nextId;
    Wrap(g, id, if next <= id then id - next else id + 256 - next);
    var wrapped := g.(sat := g.sat.(nextId := id));
    g' := Request1(wrapped);
    LeadsOn(g, wrapped, g');
  }

  lemma Request1(g: System) returns (g': System)
    requires Sound(g.ship)
    ensures Leads(g, g') && g' == g.(sat := g'.sat) && Tracks(g'.sat, g.sat.nextId, Fresh())
  {
    RequestRoundTrip(MY_MMSI);
    LeadsStep(g, ToSatellite(RequestPacket(MY_MMSI), 0));
    Unheard(g, Sat.HandleRequest(g.sat, MY_MMSI, 0));
    g' := g.(sat := Sat.HandleRequest(g.sat, MY_MMSI, 0));
  }

  /** Every fragment of the sequence is in flight under the id. */
  ghost predicate AllInFlight(us: seq<Uplink>, g: System, id: byte) {
    forall k :: 0 <= k < |us| ==> us[k] in InFlight(g, id)
  }

  lemma HearOne(g: System, id: byte, p: Progress, u: Uplink) returns (g': System)
    requires Sound(g.ship) && Tracks(g.sat, id, p) && u in InFlight(g, id)
    ensures Leads(g, g')
    ensures exists o :: Shows(o, id, Feed(p, u)) && g' == SatelliteStep(g, o)
  {
    var raw :| raw in g.toSat && FragmentUnder(raw, id) && DecodeUplink(raw) == u;
    var o := Sat.Accept(g.sat, u, 0);
    FeedIsAccept(g.sat, id, p, u, 0);
    LeadsStep(g, ToSatellite(raw, 0));
    g' := SatelliteStep(g, o);
  }

  /** As long as the session only waits. */
  lemma {:induction false} HearWaiting(g: System, id: byte, p: Progress, us: seq<Uplink>) returns (g': System)
    requires Sound(g.ship) && Tracks(g.sat, id, p) && AllInFlight(us, g, id) && AllFragments(us)
    requires FeedAll(p, us).Waiting?
    ensures Leads(g, g') && g' == g.(sat := g'.sat) && Tracks(g'.sat, id, FeedAll(p, us))
  {
    if us == [] {
      g' := g;
    } else {
      var n := |us| - 1;
      var mid := HearWaiting(g, id, p, us[..n]);
      g' := HearOne(mid, id, FeedAll(p, us[..n]), us[n]);
      LeadsOn(g, mid, g');
    }
  }

  /** What was handed on is acknowledged, and completes the session under the id only if it is
      that session's message. */
  predicate HandedOn(g: System, g': System, id: byte, data: seq<byte>) {
    && g' == g.(sat := g'.sat, toShip := g'.toShip, completed := g'.completed)
    && MY_MMSI !in g'.sat.sessions && AckPacket(MY_MMSI, id) in g'.toShip && g.toShip <= g'.toShip
    && g'.completed == g.completed + if Completes(g, Sat.Delivery(MY_MMSI, id, data)) then {g.latest[id]} else {}
  }

  lemma DeliveryStep(g: System, o: Sat.Out, id: byte, data: seq<byte>)
    requires Shows(o, id, Delivered(data))
    ensures HandedOn(g, SatelliteStep(g, o), id, data)
  {
    assert o.delivered[0] in o.delivered && o.packets[0] in o.packets;
  }

  /** Up to a delivery. */
  lemma {:induction false} HearAll(g: System, id: byte, p: Progress, us: seq<Uplink>) returns (g': System)
    requires Sound(g.ship) && Tracks(g.sat, id, p) && AllInFlight(us, g, id) && AllFragments(us)
    requires FeedAll(p, us).Delivered?
    ensures Leads(g, g') && HandedOn(g, g', id, FeedAll(p, us).data)
  {
    var n := |us| - 1;
    var before := FeedAll(p, us[..n]);
    if before.Delivered? {
      g' := HearAll(g, id, p, us[..n]);
    } else {
      var mid := HearWaiting(g, id, p, us[..n]);
      g' := HearOne(mid, id, before, us[n]);
      var o :| Shows(o, id, Feed(before, us[n])) && g' == SatelliteStep(mid, o);
      DeliveryStep(mid, o, id, FeedAll(p, us).data);
      LeadsOn(g, mid, g');
    }
  }

  // ---------- Taking up a session id ----------

  /** The packet makes the ship take up the id. */
  predicate TakesUp(g: System, raw: seq<byte>, id: byte)
    requires Sound(g.ship)
  {
    g.ship.state == Asc && Active(Receive(g.ship, raw).m) && Receive(g.ship, raw).m.session == id
  }

  function TakeUpOf(g: System, id: byte): TakeUp {
    TakeUp(id, g.ship.message, |g.taken|, HeldNow(g.sat, id), InFlight(g, id))
  }

  /** A session just taken up: nothing of it has been sent. */
  predicate JustTaken(m: Machine, message: seq<byte>) {
    && m.state == Send && m.message == message && message != []
    && m.pieces == Split(message) && m.total == FragmentCount(message)
  }

  lemma {:induction false} FirstGrantCounts(m: Machine, gs: seq<Grant>)
    requires Sound(m) && m.state == Asc && m.message != [] && gs != []
    ensures JustTaken(GrantedAll(m, gs), m.message)
  {
    if |gs| > 1 {
      FirstGrantCounts(m, gs[..|gs| - 1]);
    } else {
      assert gs[..0] == [];
    }
  }

  lemma ReceiveTakesUp(m: Machine, raw: seq<byte>)
    requires Sound(m) && m.state == Asc && Active(Receive(m, raw).m)
    ensures JustTaken(Receive(m, raw).m, m.message) && Receive(m, raw).events == []
  {
    var gs := DecodeAllocation(raw);
    if gs != [] && m.message == [] {
      GrantsEndEmpty(m, gs);
    } else if gs != [] {
      FirstGrantCounts(m, gs);
    }
  }

  /** What taking up does to the rest of the system. */
  lemma TakenUp(g: System, raw: seq<byte>, id: byte)
    requires Sound(g.ship) && TakesUp(g, raw, id)
    ensures var g' := ShipStep(g, Packet(raw));
            && JustTaken(g'.ship, g.ship.message) && g'.ship.session == id
            && g' == g.(ship := g'.ship, taken := g.taken + [Session(id, g.ship.message)],
                        latest := g.latest[id := |g.taken|], reused := g.reused || !Settled(g, id))
  {
    ReceiveTakesUp(g.ship, raw);
    ShipEffects(g.ship, Packet(raw));
    assert PacketsOf([]) == {};
  }

  /** Session `n` was reported as sent, although the satellite did not hand its message on. */
  predicate Misled(g: System, n: nat) {
    n in g.reported && n !in g.completed
  }

  /** The run can go on to a false success of session `n`. */
  ghost predicate CanMislead(at: Run, n: nat) {
    exists run: Run :: Extends(run, at) && Misled(run.End(), n)
  }

  lemma MisledWhereLed(at: Run, g: System, n: nat)
    requires Leads(at.End(), g) && Misled(g, n)
    ensures CanMislead(at, n)
  {
    var run := RunTo(at, g);
  }

  // ---------- Acknowledgements in flight ----------

  predicate StaleAck(g: System, n: nat) {
    && Active(g.ship) && |g.taken| == n + 1 && n !in g.completed
    && AckPacket(MY_MMSI, g.ship.session) in g.toShip
  }

  lemma StaleAckEndsIt(g: System, n: nat) returns (g': System)
    requires Sound(g.ship) && LastOne(g) && StaleAck(g, n)
    ensures Leads(g, g') && Misled(g', n) && g'.taken == g.taken && g'.completed == g.completed
  {
    var sent := SendAll(g);
    Acknowledge(sent);
    g' := Reported(sent);
    LeadsOn(g, sent, g');
  }

  /** In any run at all: while session `n` lasts and is not complete, an acknowledgement in
      flight under its id can turn into a false success. */
  lemma StaleAckMisleads(at: Run, n: nat)
    requires StaleAck(at.End(), n)
    ensures CanMislead(at, n)
  {
    AlwaysShape(at);
    var g := StaleAckEndsIt(at.End(), n);
    MisledWhereLed(at, g, n);
  }

  lemma AckFound(g: System, raw: seq<byte>, id: byte)
    requires Shape(g) && TakesUp(g, raw, id) && !NoAcks(g, id)
    ensures StaleAck(ShipStep(g, Packet(raw)), |g.taken|)
  {
    TakenUp(g, raw, id);
    var p :| p in g.toShip && AckUnder(p, id);
    assert FromSatellite(p);
  }

  // ---------- Mixtures ----------

  /** All of the message is in flight, and nothing is left to send. */
  ghost predicate AllSent(g: System, message: seq<byte>, id: byte) {
    && Sound(g.ship) && g.ship.state == WaitAck && g.ship.message == message && g.ship.session == id
    && forall u :: IsFragmentOf(u, message, id) ==> u in InFlight(g, id)
  }

  lemma SplitUnacked(m: Machine, message: seq<byte>)
    requires JustTaken(m, message)
    ensures NoneAcked(m) && m.total - |m.pieces| == 0
  {}

  lemma SendMessage(g: System, message: seq<byte>) returns (g': System)
    requires Sound(g.ship) && g.ship.mmsi == MY_MMSI && g.ship.channel < 6 && JustTaken(g.ship, message)
    ensures Leads(g, g') && ShipMoved(g, g') && AllSent(g', message, g.ship.session)
  {
    g' := SendAll(g);
    SplitUnacked(g.ship, message);
    var m, id := g.ship, g.ship.session;
    forall u | IsFragmentOf(u, message, id) ensures u in InFlight(g', id) {
      var i :| 0 <= i < FragmentCount(message) && u == FragmentOf(message, i, MY_MMSI, id);
      FragmentRoundTrip(message, i, MY_MMSI, id, m.dest);
      assert OwnPacket(m, i) in g'.toSat && FragmentUnder(OwnPacket(m, i), id);
    }
  }

  /** The satellite stands where the mixture begins. */
  lemma StartAt(g: System, id: byte, start: Progress) returns (g': System)
    requires Sound(g.ship) && start in {HeldNow(g.sat, id), Fresh()}
    ensures Leads(g, g') && g' == g.(sat := g'.sat) && Tracks(g'.sat, id, start)
  {
    if Tracks(g.sat, id, start) {
      g' := g;
    } else {
      g' := Reopen(g, id);
    }
  }

  /** All of the message is sent, and the satellite stands where the mixture begins. */
  lemma ReadyToMix(g: System, id: byte, start: Progress) returns (g': System)
    requires Sound(g.ship) && g.ship.mmsi == MY_MMSI && g.ship.channel < 6
    requires JustTaken(g.ship, g.ship.message) && g.ship.session == id && start in {HeldNow(g.sat, id), Fresh()}
    ensures Leads(g, g') && Tracks(g'.sat, id, start) && AllSent(g', g.ship.message, id)
    ensures g' == g.(ship := g'.ship, sat := g'.sat, toSat := g'.toSat)
    ensures g.toSat <= g'.toSat && ToIdle(g'.ship) == ToIdle(g.ship)
  {
    var sent := SendMessage(g, g.ship.message);
    g' := StartAt(sent, id, start);
    LeadsOn(g, sent, g');
    assert InFlight(g', id) == InFlight(sent, id);
  }

  lemma AvailableIsInFlight(g: System, g': System, us: seq<Uplink>, message: seq<byte>, id: byte)
    requires g.toSat <= g'.toSat && AllSent(g', message, id) && AllAvailable(us, InFlight(g, id), message, id)
    ensures AllInFlight(us, g', id)
  {
    forall k | 0 <= k < |us| ensures us[k] in InFlight(g', id) {
      assert Available(us[k], InFlight(g, id), message, id);
      if us[k] in InFlight(g, id) {
        var p :| p in g.toSat && FragmentUnder(p, id) && us[k] == DecodeUplink(p);
        assert p in g'.toSat;
      }
    }
  }

  /** The message is sent, and the satellite has handed on and acknowledged `data`. */
  ghost predicate Mixed(g: System, g': System, id: byte, data: seq<byte>) {
    && AllSent(g', g.ship.message, id) && ToIdle(g'.ship) == ToIdle(g.ship)
    && g' == g.(ship := g'.ship, sat := g'.sat, toSat := g'.toSat, toShip := g'.toShip, completed := g'.completed)
    && AckPacket(MY_MMSI, id) in g'.toShip && MY_MMSI !in g'.sat.sessions && g.toShip <= g'.toShip
    && g'.completed == g.completed + if Completes(g, Sat.Delivery(MY_MMSI, id, data)) then {g.latest[id]} else {}
  }

  lemma HandedOnIsMixed(g: System, ready: System, g': System, id: byte, data: seq<byte>)
    requires AllSent(ready, g.ship.message, id) && ToIdle(ready.ship) == ToIdle(g.ship)
    requires ready == g.(ship := ready.ship, sat := ready.sat, toSat := ready.toSat) && HandedOn(ready, g', id, data)
    ensures Mixed(g, g', id, data)
  {
    assert InFlight(g', id) == InFlight(ready, id);
  }

  /** A message taken up can be mixed with what is in flight, handed on, and acknowledged. */
  lemma MixIt(g: System, id: byte, start: Progress, us: seq<Uplink>) returns (g': System)
    requires Sound(g.ship) && g.ship.mmsi == MY_MMSI && g.ship.channel < 6
    requires JustTaken(g.ship, g.ship.message) && g.ship.session == id
    requires start in {HeldNow(g.sat, id), Fresh()} && AllFragments(us) && FeedAll(start, us).Delivered?
    requires AllAvailable(us, InFlight(g, id), g.ship.message, id)
    ensures Leads(g, g') && Mixed(g, g', id, FeedAll(start, us).data)
  {
    var ready := ReadyToMix(g, id, start);
    AvailableIsInFlight(g, ready, us, g.ship.message, id);
    g' := HearAll(ready, id, start, us);
    LeadsOn(g, ready, g');
    HandedOnIsMixed(g, ready, g', id, FeedAll(start, us).data);
  }

  lemma MixtureEndsIt(g: System, raw: seq<byte>, id: byte) returns (g': System)
    requires Shape(g) && Shape(ShipStep(g, Packet(raw))) && TakesUp(g, raw, id) && TakeUpOf(g, id).CanMix()
    ensures Leads(ShipStep(g, Packet(raw)), g') && Misled(g', |g.taken|)
    ensures var g1 := ShipStep(g, Packet(raw)); g'.taken == g1.taken && g'.reused == g1.reused
  {
    var t := TakeUpOf(g, id);
    var g1 := ShipStep(g, Packet(raw));
    TakenUp(g, raw, id);
    var data :| data != t.message && Reached(Delivered(data), t.held, t.stale, t.message, id);
    var us :| AllAvailable(us, t.stale, t.message, id) && AllFragments(us)
              && (Delivered(data) == FeedAll(t.held, us) || Delivered(data) == FeedAll(Fresh(), us));
    var start := if Delivered(data) == FeedAll(t.held, us) then t.held else Fresh();
    var mixed := MixIt(g1, id, start, us);
    assert !Completes(g1, Sat.Delivery(MY_MMSI, id, data));
    Acknowledge(mixed);
    g' := Reported(mixed);
    LeadsOn(g1, mixed, g');
  }

  lemma ConfinedAtFirst(g: System, raw: seq<byte>, id: byte)
    requires Shape(g) && TakesUp(g, raw, id) && NoAcks(g, id)
    ensures Confined(ShipStep(g, Packet(raw)), TakeUpOf(g, id))
  {
    TakenUp(g, raw, id);
    ReachedStart(HeldNow(g.sat, id), InFlight(g, id), g.ship.message, id);
  }

  /** For every run and every take-up of a session id: the new message can be reported as sent
      without having been handed on exactly when an acknowledgement under the id is in flight,
      or what is in flight and held under the id can be mixed with the new message into
      something else. */
  lemma TakeUpMisleadsIff(before: Run, raw: seq<byte>, id: byte)
    requires Enabled(before.End(), ToShip(raw)) && TakesUp(before.End(), raw, id)
    ensures var g := before.End();
            CanMislead(Then(before, ToShip(raw)), |g.taken|) <==> !NoAcks(g, id) || TakeUpOf(g, id).CanMix()
  {
    var g, at := before.End(), Then(before, ToShip(raw));
    var t := TakeUpOf(g, id);
    AlwaysShape(before);
    AlwaysShape(at);
    assert at.End() == ShipStep(g, Packet(raw));
    if !NoAcks(g, id) {
      AckFound(g, raw, id);
      StaleAckMisleads(at, t.n);
    } else if t.CanMix() {
      var g' := MixtureEndsIt(g, raw, id);
      MisledWhereLed(at, g', t.n);
    } else {
      ConfinedAtFirst(g, raw, id);
      NeverMisled(at, t);
    }
  }

  lemma NeverMisled(at: Run, t: TakeUp)
    requires Confined(at.End(), t) && !t.CanMix()
    ensures !CanMislead(at, t.n)
  {
    forall run | Extends(run, at) ensures !Misled(run.End(), t.n) {
      StaysConfined(run, at, t);
    }
  }

  // ---------- Settled ids ----------

  lemma SettledIsAlone(g: System, id: byte)
    requires Settled(g, id)
    ensures InFlight(g, id) == {} && HeldNow(g.sat, id) == Fresh()
  {}

  /** A settled id is safe to take up for every message but one whose numbers wrap around. */
  lemma SettledTakeUpIff(before: Run, raw: seq<byte>, id: byte)
    requires Enabled(before.End(), ToShip(raw)) && TakesUp(before.End(), raw, id) && Settled(before.End(), id)
    ensures var g := before.End();
            CanMislead(Then(before, ToShip(raw)), |g.taken|) <==> Sat.CanWrap(g.ship.message)
  {
    TakeUpMisleadsIff(before, raw, id);
    SettledIsAlone(before.End(), id);
    AloneMixableIff(before.End().ship.message, id);
  }

  lemma OneMoreTaken(g: System, step: Step)
    requires Sound(g.ship) && Enabled(g, step)
    ensures var g' := Apply(g, step);
            || g'.taken == g.taken
            || (step.ToShip? && TakesUp(g, step.raw, g'.ship.session) && |g'.taken| == |g.taken| + 1
                && g'.taken[|g.taken|] == Session(g'.ship.session, g.ship.message)
                && (!g'.reused ==> Settled(g, g'.ship.session)))
  {
    if Apply(g, step).taken != g.taken {
      OnlyGrantsActivate(g, step);
      TakenUp(g, step.raw, Apply(g, step).ship.session);
    }
  }

  lemma TakesConfined(g: System, step: Step)
    requires Shape(g) && Enabled(g, step) && |Apply(g, step).taken| > |g.taken| && !Apply(g, step).reused
    requires !Sat.CanWrap(Apply(g, step).taken[|g.taken|].message)
    ensures var t := TakeUpOf(g, Apply(g, step).ship.session); !t.CanMix() && Confined(Apply(g, step), t)
  {
    OneMoreTaken(g, step);
    var id := Apply(g, step).ship.session;
    SettledIsAlone(g, id);
    AloneMixableIff(g.ship.message, id);
    ConfinedAtFirst(g, step.raw, id);
  }

  lemma TakenBefore(g: System, step: Step)
    requires Sound(g.ship) && Enabled(g, step)
    ensures g.taken <= Apply(g, step).taken && |Apply(g, step).taken| <= |g.taken| + 1
    ensures g.reused ==> Apply(g, step).reused
  {}

  /** In runs with settled ids, every session of a message that can not wrap is confined. */
  lemma {:induction false} SettledConfined(run: Run, n: nat) returns (t: TakeUp)
    requires !run.End().reused && n < |run.End().taken| && !Sat.CanWrap(run.End().taken[n].message)
    ensures t.n == n && !t.CanMix() && Confined(run.End(), t)
  {
    var g := run.before.End();
    if !Enabled(g, run.step) {
      t := SettledConfined(run.before, n);
    } else {
      TakenBefore(g, run.step);
      AlwaysShape(run.before);
      if n < |g.taken| {
        t := SettledConfined(run.before, n);
        StepConfined(g, t, run.step);
      } else {
        TakesConfined(g, run.step);
        t := TakeUpOf(g, run.End().ship.session);
      }
    }
  }

  /** So in runs with settled ids only such a message can be reported falsely. */
  lemma MisledWraps(run: Run, n: nat)
    requires !run.End().reused && Misled(run.End(), n)
    ensures n < |run.End().taken| && Sat.CanWrap(run.End().taken[n].message)
  {
    AlwaysShape(run);
    if !Sat.CanWrap(run.End().taken[n].message) {
      var t := SettledConfined(run, n);
    }
  }

  // ---------- Ids that are not settled ----------

  /** The last message under the id, and which of its fragments are in flight. */
  function OldOf(g: System, id: byte): Old {
    if id in g.latest && g.latest[id] < |g.taken| then
      var message := Owner(g, id);
      Old(message, set i: nat | i < FragmentCount(message) && FragmentOf(message, i, MY_MMSI, id) in InFlight(g, id))
    else Old([], {})
  }

  /** How many of its fragments the satellite holds. */
  function HeldCount(g: System, id: byte): nat {
    HeldNow(g.sat, id).expected
  }

  lemma InFlightIsOld(g: System, id: byte)
    requires Inv(g)
    ensures OldOf(g, id).Valid() && InFlight(g, id) == OldOf(g, id).Fragments(id)
  {
    forall u | u in InFlight(g, id) ensures id in g.latest && IsFragmentOf(u, Owner(g, id), id) {
      var p :| p in g.toSat && FragmentUnder(p, id) && u == DecodeUplink(p);
      assert HonestPacket(g, p);
    }
  }

  lemma HeldIsOld(g: System, id: byte)
    requires Inv(g)
    ensures var o, h := OldOf(g, id), HeldCount(g, id);
            HeldNow(g.sat, id) == HeldOf(o, h) && (h == 0 || h < FragmentCount(o.message))
  {
    assert Prefix(OldOf(g, id).message, 0) == [];
  }

  /** After any run with settled ids, exactly which fragments and data of the last message under
      an id make taking it up again unsafe. */
  lemma OldTakeUpIff(before: Run, raw: seq<byte>, id: byte)
    requires before.End().fits && !before.End().reused
    requires Enabled(before.End(), ToShip(raw)) && TakesUp(before.End(), raw, id)
    ensures var g := before.End();
            var o, h, message := OldOf(g, id), HeldCount(g, id), g.ship.message;
            CanMislead(Then(before, ToShip(raw)), |g.taken|) <==>
              || !NoAcks(g, id)
              || MixesFrom(o, message, 0, false)
              || (h > 0 && MixesFrom(o, message, h, Apart(o, message, h)))
  {
    var g := before.End();
    RunKeeps(before);
    TakeUpMisleadsIff(before, raw, id);
    InFlightIsOld(g, id);
    HeldIsOld(g, id);
    MixableIff(OldOf(g, id), g.ship.message, HeldCount(g, id), id);
  }

  /** In particular one old fragment is enough, if others follow it in both messages and its
      chunk is not the new one's. */
  lemma OneOldFragmentMisleads(before: Run, raw: seq<byte>, id: byte, i: nat)
    requires before.End().fits && !before.End().reused
    requires Enabled(before.End(), ToShip(raw)) && TakesUp(before.End(), raw, id)
    requires OldInner(OldOf(before.End(), id), i)
    requires var message := before.End().ship.message;
             && Sat.NoFileMarker(message) && i + 1 < FragmentCount(message)
             && Chunk(OldOf(before.End(), id).message, i) != Chunk(message, i)
    ensures CanMislead(Then(before, ToShip(raw)), |before.End().taken|)
  {
    var o, message := OldOf(before.End(), id), before.End().ship.message;
    OldTakeUpIff(before, raw, id);
    OneDifference(o, message, i);
  }

  lemma OneDifference(o: Old, message: seq<byte>, i: nat)
    requires Sat.NoFileMarker(message) && i + 1 < FragmentCount(message) && OldInner(o, i)
    requires Chunk(o.message, i) != Chunk(message, i)
    ensures MixesFrom(o, message, 0, false)
  {
    var e := FragmentCount(message) - 1;
    assert Differs(o, message, i) && SomeDiffers(o, message, 0, e);
    assert Final(message, e) && EndsWrong(o, message, 0, false, e);
  }
}
