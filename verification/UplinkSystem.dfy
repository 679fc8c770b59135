/** Ship, satellite and the network between them.

    The network may deliver any packet it has at any time, any number of times, or never, and
    drops it for good when it likes: loss, duplication and reordering.  Packets of other ships
    and of other kinds may reach either side at any time. */
module UplinkSystem {
  import opened Bytes
  import opened UplinkWire
  import opened UplinkShip
  import opened Segments
  import Sat = UplinkSatellite
  import Clock = SlotClock
  import DcChannels

  /** A session of the ship: the id it took up, and the message it sends under it. */
  datatype Session = Session(id: byte, message: seq<byte>)

  /** The ship's sessions are told apart by their place in `taken`, for an eight-bit id can be
      taken up again. */
  datatype System = System(
    ship: Machine, sat: Sat.Satellite,
    toSat: set<seq<byte>>, toShip: set<seq<byte>>,
    taken: seq<Session>,                   // every session the ship took up, in order
    latest: map<byte, nat>,                // the place of the last session under each id
    reused: bool,                          // some session id was taken up while still in use
    completed: set<nat>,                   // sessions whose message was handed on after their take-up
    reported: set<nat>,                    // sessions reported as sent
    fits: bool)                            // every message submitted has fragments its numbers can count

  datatype Step =
    | Ship(input: Input)
    | ToShip(raw: seq<byte>)
    | ToSatellite(raw: seq<byte>, slot: Clock.Slot)
    | AllocationTimer(slot: Clock.Slot, pick: nat)
    | SessionTimer(ship: u32)
    | DownlinkSend                         // takes a session id from the same counter
    | Drop(lost: set<seq<byte>>)

  function Start(macLimit: byte): System {
    System(Initial(MY_MMSI, macLimit), Sat.Initial(), {}, {}, [], map[], false, {}, {}, true)
  }

  /** Traffic the ship under study did not send: no fragment in its name. */
  predicate ForeignToSatellite(raw: seq<byte>) {
    var u := DecodeUplink(raw);
    u.Fragment? ==> u.ship != MY_MMSI
  }

  /** Traffic that is not an allocation for the ship nor an acknowledgement to it. */
  predicate ForeignToShip(raw: seq<byte>) {
    && DecodeAllocation(raw) == []
    && (DecodeAck(raw).Some? ==> DecodeAck(raw).value.ship != MY_MMSI)
  }

  predicate Enabled(g: System, step: Step) {
    match step
    case Ship(input) => !input.Packet?
    case ToShip(raw) => raw in g.toShip || ForeignToShip(raw)
    case ToSatellite(raw, _) => raw in g.toSat || ForeignToSatellite(raw)
    case AllocationTimer(_, pick) => pick < DcChannels.CHANNELS
    case SessionTimer(_) => true
    case DownlinkSend => true
    case Drop(_) => true
  }

  predicate FragmentUnder(raw: seq<byte>, id: byte) {
    var u := DecodeUplink(raw);
    u.Fragment? && u.ship == MY_MMSI && u.session == id
  }

  predicate AckUnder(raw: seq<byte>, id: byte) {
    var a := DecodeAck(raw);
    a.Some? && a.value.ship == MY_MMSI && a.value.session == id
  }

  predicate NoFragments(g: System, id: byte) {
    forall p :: p in g.toSat ==> !FragmentUnder(p, id)
  }

  predicate NoAcks(g: System, id: byte) {
    forall p :: p in g.toShip ==> !AckUnder(p, id)
  }

  predicate NothingHeld(g: System, id: byte) {
    MY_MMSI in g.sat.sessions && g.sat.sessions[MY_MMSI].id == id ==>
      g.sat.sessions[MY_MMSI].expected == 0 && g.sat.sessions[MY_MMSI].data == []
  }

  /** Nothing sent under the session id is in flight any more, and the satellite holds nothing
      received under it. */
  predicate Settled(g: System, id: byte) {
    NoFragments(g, id) && NoAcks(g, id) && NothingHeld(g, id)
  }

  function PacketsOf(events: seq<Event>): set<seq<byte>> {
    set e | e in events && (e.Requested? || e.Sent?) :: e.packet
  }

  /** Messages the source's two-byte fragment numbers can count. */
  predicate Fits(message: seq<byte>) {
    FragmentCount(message) <= Sat.MAX_FRAGMENTS
  }

  predicate Submittable(input: Input) {
    match input
    case Submit(data, _) => Fits(data)
    case SubmitAt(_, _, data, _) => Fits(data)
    case _ => true
  }

  function ShipStep(g: System, input: Input): System
    requires Sound(g.ship)
  {
    var o := React(g.ship, input);
    var adopts := g.ship.state == Asc && Active(o.m);
    g.(ship := o.m,
       toSat := g.toSat + PacketsOf(o.events),
       taken := if adopts then g.taken + [Session(o.m.session, o.m.message)] else g.taken,
       latest := if adopts then g.latest[o.m.session := |g.taken|] else g.latest,
       reused := g.reused || (adopts && !Settled(g, o.m.session)),
       reported := if Finished(true, Acknowledged) in o.events && g.taken != [] then g.reported + {|g.taken| - 1}
                   else g.reported,
       fits := g.fits && Submittable(input))
  }

  /** The delivery is the whole message of the last session the ship took up under its id. */
  predicate Completes(g: System, d: Sat.Delivery) {
    && d.ship == MY_MMSI && d.session in g.latest
    && g.latest[d.session] < |g.taken| && d.data == g.taken[g.latest[d.session]].message
  }

  function SatelliteStep(g: System, o: Sat.Out): System {
    g.(sat := o.s,
       toShip := g.toShip + (set p | p in o.packets),
       completed := g.completed + (set d | d in o.delivered && Completes(g, d) :: g.latest[d.session]))
  }

  /** What the satellite does in a step. */
  function SatelliteOut(g: System, step: Step): Sat.Out
    requires Enabled(g, step)
  {
    match step
    case ToSatellite(raw, slot) => Sat.Accept(g.sat, DecodeUplink(raw), slot)
    case AllocationTimer(slot, pick) => Sat.AllocationTimeout(g.sat, slot, pick)
    case SessionTimer(ship) => Sat.Quiet(Sat.Closed(g.sat, ship))
    case DownlinkSend => Sat.Quiet(Sat.TakeId(g.sat))
    case _ => Sat.Quiet(g.sat)
  }

  function Apply(g: System, step: Step): System
    requires Sound(g.ship) && Enabled(g, step)
  {
    match step
    case Ship(input) => ShipStep(g, input)
    case ToShip(raw) => ShipStep(g, Packet(raw))
    case Drop(lost) => g.(toSat := g.toSat - lost, toShip := g.toShip - lost)
    case _ => SatelliteStep(g, SatelliteOut(g, step))
  }

  // ---------- The invariant ----------

  /** The message the ship last sent under a session id. */
  function Owner(g: System, id: byte): seq<byte>
    requires id in g.latest && g.latest[id] < |g.taken|
  {
    g.taken[g.latest[id]].message
  }

  ghost predicate TakenInv(g: System) {
    && (forall id :: id in g.latest ==> g.latest[id] < |g.taken| && Fits(Owner(g, id)))
    && (forall id :: id in g.latest ==> g.taken[g.latest[id]].id == id)
  }

  /** A packet on its way to the satellite: a fragment of the message its session id stands for. */
  ghost predicate HonestPacket(g: System, raw: seq<byte>)
    requires TakenInv(g)
  {
    forall id :: FragmentUnder(raw, id) ==> id in g.latest && IsFragmentOf(DecodeUplink(raw), Owner(g, id), id)
  }

  /** An acknowledgement on its way to the ship: the last session under its id is complete. */
  ghost predicate HonestAck(g: System, raw: seq<byte>) {
    forall id :: AckUnder(raw, id) ==>
      raw == AckPacket(MY_MMSI, id) && id in g.latest && g.latest[id] in g.completed
  }

  ghost predicate ShipInv(g: System)
    requires TakenInv(g)
  {
    && Sound(g.ship) && Fits(g.ship.message) && g.ship.mmsi == MY_MMSI
    && (Active(g.ship) ==>
          && g.ship.session in g.latest && g.latest[g.ship.session] == |g.taken| - 1
          && Owner(g, g.ship.session) == g.ship.message)
  }

  ghost predicate SessionInv(g: System)
    requires TakenInv(g)
  {
    MY_MMSI in g.sat.sessions ==>
      var s := g.sat.sessions[MY_MMSI];
      if s.id in g.latest then Sat.HoldsPrefix(s, Owner(g, s.id)) else s.expected == 0 && s.data == []
  }

  ghost predicate Inv(g: System) {
    && TakenInv(g)
    && ShipInv(g)
    && SessionInv(g)
    && (forall p :: p in g.toSat ==> HonestPacket(g, p))
    && (forall p :: p in g.toShip ==> HonestAck(g, p))
    && (forall n :: n in g.completed ==> n < |g.taken| && Sat.NoFileMarker(g.taken[n].message))
    && g.reported <= g.completed
  }

  // ---------- Ship steps keep the invariant ----------

  /** How the message, the session and the reports can change in one event. */
  lemma ShipEffects(m: Machine, input: Input)
    requires Sound(m)
    ensures var o := React(m, input);
            && Sound(o.m) && o.m.mmsi == m.mmsi
            && (o.m.message == m.message || o.m.message == []
                || (input.Submit? && o.m.message == input.data) || (input.SubmitAt? && o.m.message == input.data))
            && (Active(o.m) && m.state != Asc ==> Active(m) && o.m.message == m.message && o.m.session == m.session)
            && (Active(o.m) ==> o.m.message == m.message)
  {
    match input
    case Slot(slot) =>
      ReactSound(m, input);
      if m.state == Send && InDcChannel(m.channel, slot) {
        SendNextEvent(m, slot);
      }
    case Packet(raw) => PacketEffects(m, raw);
    case _ =>
  }

  lemma PacketEffects(m: Machine, raw: seq<byte>)
    requires Sound(m)
    ensures var o := React(m, Packet(raw));
            && Sound(o.m) && o.m.mmsi == m.mmsi && (o.m.message == m.message || o.m.message == [])
            && (Active(o.m) && m.state != Asc ==> Active(m) && o.m.session == m.session)
            && (Active(o.m) ==> o.m.message == m.message)
  {
    var m' := GrantedAll(m, DecodeAllocation(raw));
    GrantsEffect(m, DecodeAllocation(raw));
    GrantedAllSound(m, DecodeAllocation(raw));
    HandleEffects(m', raw);
  }

  lemma HandleEffects(m: Machine, raw: seq<byte>)
    requires Sound(m)
    ensures var o := HandlePacket(m, raw);
            && Sound(o.m) && o.m.mmsi == m.mmsi && (o.m.message == m.message || o.m.message == [])
            && (Active(o.m) ==> Active(m) && o.m.session == m.session && o.m.message == m.message)
  {
    if Active(m) && raw != [] && raw[0] == 13 && DecodeAck(raw).Some? {
      AckKeepsSession(m, DecodeAck(raw).value);
      HandleAckSound(m, DecodeAck(raw).value);
    }
  }

  lemma {:induction false} GrantsEffect(m: Machine, gs: seq<Grant>)
    ensures var m' := GrantedAll(m, gs);
            && (m'.message == m.message || m'.message == []) && m'.mmsi == m.mmsi
            && (m.state != Asc ==> m' == m) && (Active(m') ==> m'.message == m.message)
  {
    if gs != [] {
      GrantsEffect(m, gs[..|gs| - 1]);
    }
  }

  /** What the ship puts on the air for the satellite. */
  lemma ShipPackets(m: Machine, input: Input, p: seq<byte>)
    requires Sound(m) && m.mmsi == MY_MMSI && p in PacketsOf(React(m, input).events)
    ensures DecodeUplink(p).Fragment? ==>
              Active(m) && DecodeUplink(p).session == m.session && IsFragmentOf(DecodeUplink(p), m.message, m.session)
  {
    if input.Slot? && m.state == Send && InDcChannel(m.channel, input.slot) {
      SendNextEvent(m, input.slot);
      FaithfulDecodes(m, SendNext(m, input.slot).events[0]);
    } else {
      OthersRequest(m, input, p);
    }
  }

  lemma FaithfulDecodes(m: Machine, e: Event)
    requires m.mmsi == MY_MMSI && e.Sent? && Faithful(m, e)
    ensures IsFragmentOf(DecodeUplink(e.packet), m.message, m.session)
    ensures DecodeUplink(e.packet).session == m.session
  {
    FragmentRoundTrip(m.message, e.num, MY_MMSI, m.session, m.dest);
    assert DecodeUplink(e.packet) == FragmentOf(m.message, e.num, MY_MMSI, m.session);
  }

  lemma OthersRequest(m: Machine, input: Input, p: seq<byte>)
    requires Sound(m) && m.mmsi == MY_MMSI && p in PacketsOf(React(m, input).events)
    requires !(input.Slot? && m.state == Send && InDcChannel(m.channel, input.slot))
    ensures DecodeUplink(p) == Request(MY_MMSI)
  {
    var e :| e in React(m, input).events && (e.Requested? || e.Sent?) && e.packet == p;
    OnlyRequests(m, input, e);
    RequestRoundTrip(MY_MMSI);
  }

  lemma OnlyRequests(m: Machine, input: Input, e: Event)
    requires Sound(m) && e in React(m, input).events && (e.Requested? || e.Sent?)
    requires !(input.Slot? && m.state == Send && InDcChannel(m.channel, input.slot))
    ensures e.packet == RequestPacket(m.mmsi)
  {
    match input
    case Packet(raw) => PacketsOnlyReport(GrantedAll(m, DecodeAllocation(raw)), raw, e);
    case _ =>
  }

  lemma PacketsOnlyReport(m: Machine, raw: seq<byte>, e: Event)
    requires e in HandlePacket(m, raw).events
    ensures e.Finished?
  {}

  /** Success is reported only upon an acknowledgement for the current session, and with
      the satellite's kind of acknowledgement only when nothing is left to send. */
  lemma SuccessNeedsAck(m: Machine, input: Input)
    requires Sound(m) && Finished(true, Acknowledged) in React(m, input).events
    ensures input.Packet? && Active(GrantedAll(m, DecodeAllocation(input.raw)))
    ensures var a := DecodeAck(input.raw); a.Some? && a.value.ship == MY_MMSI
    ensures Active(m) && DecodeAck(input.raw).value.session == m.session
  {
    var raw := input.raw;
    assert raw[0] == 13;
    assert DecodeAllocation(raw) == [];
  }

  lemma ShipStepKeeps(g: System, input: Input)
    requires Inv(g) && !ShipStep(g, input).reused
    requires Submittable(input)
    requires input.Packet? ==> input.raw in g.toShip || ForeignToShip(input.raw)
    ensures Inv(ShipStep(g, input))
  {
    var g' := ShipStep(g, input);
    ShipInvKept(g, input);
    OldPacketsStayHonest(g, input);
    OldSessionStaysHonest(g, input);
    forall p | p in g'.toSat && p !in g.toSat ensures HonestPacket(g', p) {
      NewPacketIsHonest(g, input, p);
    }
    TakenNumbersKept(g, input);
    if g'.reported != g.reported {
      ReportOnlyComplete(g, input);
    }
  }

  lemma TakenNumbersKept(g: System, input: Input)
    requires Sound(g.ship)
    ensures g.taken <= ShipStep(g, input).taken && ShipStep(g, input).completed == g.completed
  {}

  lemma ShipInvKept(g: System, input: Input)
    requires Inv(g)
    requires Submittable(input)
    ensures TakenInv(ShipStep(g, input)) && ShipInv(ShipStep(g, input))
  {
    ShipEffects(g.ship, input);
    TakenKept(g, input);
  }

  lemma NewPacketIsHonest(g: System, input: Input, p: seq<byte>)
    requires Inv(g) && p in PacketsOf(React(g.ship, input).events)
    ensures TakenInv(ShipStep(g, input)) && HonestPacket(ShipStep(g, input), p)
  {
    TakenKept(g, input);
    ShipPackets(g.ship, input, p);
  }

  /** Success is reported only when the ship's current session is complete. */
  lemma ReportOnlyComplete(g: System, input: Input)
    requires Inv(g) && Finished(true, Acknowledged) in React(g.ship, input).events
    requires input.Packet? ==> input.raw in g.toShip || ForeignToShip(input.raw)
    ensures Active(g.ship) && g.taken != [] && |g.taken| - 1 in g.completed
    ensures g.taken[|g.taken| - 1] == Session(g.ship.session, g.ship.message)
  {
    SuccessNeedsAck(g.ship, input);
    assert AckUnder(input.raw, g.ship.session) && HonestAck(g, input.raw);
  }

  lemma TakenKept(g: System, input: Input)
    requires Inv(g)
    ensures var g', o := ShipStep(g, input), React(g.ship, input);
            && TakenInv(g')
            && (forall id :: id in g.latest && !(g.ship.state == Asc && Active(o.m) && id == o.m.session) ==>
                  id in g'.latest && g'.latest[id] == g.latest[id] && Owner(g', id) == Owner(g, id))
  {
    ShipEffects(g.ship, input);
  }

  /** A settled session id that is taken up changes nothing for what is in flight ... */
  lemma OldPacketsStayHonest(g: System, input: Input)
    requires Inv(g) && !ShipStep(g, input).reused
    ensures var g' := ShipStep(g, input);
            && TakenInv(g')
            && (forall p :: p in g.toSat ==> HonestPacket(g', p))
            && (forall p :: p in g.toShip ==> HonestAck(g', p))
  {
    var g' := ShipStep(g, input);
    TakenKept(g, input);
    forall p | p in g.toSat ensures HonestPacket(g', p) {
      assert HonestPacket(g, p);
    }
    forall p | p in g.toShip ensures HonestAck(g', p) {
      assert HonestAck(g, p);
    }
  }

  /** ... nor for what the satellite holds. */
  lemma OldSessionStaysHonest(g: System, input: Input)
    requires Inv(g) && !ShipStep(g, input).reused
    ensures TakenInv(ShipStep(g, input)) && SessionInv(ShipStep(g, input))
  {
    var g' := ShipStep(g, input);
    TakenKept(g, input);
    if MY_MMSI in g.sat.sessions && g.sat.sessions[MY_MMSI].id in g'.latest {
      assert Prefix(Owner(g', g.sat.sessions[MY_MMSI].id), 0) == [];
    }
  }

  /** A session id never taken up is settled: the one part of the rule a ship can see. */
  lemma UnusedIsSettled(g: System, id: byte)
    requires Inv(g) && id !in g.latest
    ensures Settled(g, id)
  {
    forall p | p in g.toSat ensures !FragmentUnder(p, id) {
      assert HonestPacket(g, p);
    }
    forall p | p in g.toShip ensures !AckUnder(p, id) {
      assert HonestAck(g, p);
    }
  }

  // ---------- Satellite steps keep the invariant ----------

  lemma SatelliteStepKeeps(g: System, o: Sat.Out)
    requires Inv(g)
    requires SessionInv(g.(sat := o.s))
    requires forall d :: d in o.delivered && Completes(g, d) ==> Sat.NoFileMarker(d.data)
    requires forall p :: p in o.packets ==> HonestAck(SatelliteStep(g, o), p)
    ensures Inv(SatelliteStep(g, o))
  {
    var g' := SatelliteStep(g, o);
    forall p | p in g.toSat ensures HonestPacket(g', p) {
      assert HonestPacket(g, p);
    }
    forall p | p in g.toShip ensures HonestAck(g', p) {
      assert HonestAck(g, p);
    }
  }

  lemma OtherShipFragment(g: System, u: Uplink)
    requires Inv(g) && u.Fragment? && u.ship != MY_MMSI
    ensures var o := Sat.Accept(g.sat, u, 0); Inv(SatelliteStep(g, o))
  {
    var o := Sat.Accept(g.sat, u, 0);
    AckRoundTrip(u.ship, u.session);
    SatelliteStepKeeps(g, o);
  }

  /** A fragment of the message its session id stands for: a delivery is that message. */
  lemma OwnDelivery(g: System, u: Uplink)
    requires Inv(g) && u.Fragment? && u.ship == MY_MMSI
    requires u.session in g.latest && IsFragmentOf(u, Owner(g, u.session), u.session)
    ensures var o := Sat.Accept(g.sat, u, 0);
            && SessionInv(g.(sat := o.s))
            && (o.delivered == [] || (o.delivered == [Sat.Delivery(MY_MMSI, u.session, Owner(g, u.session))]
                                      && Sat.NoFileMarker(Owner(g, u.session))))
            && o.packets == if o.delivered == [] then [] else [AckPacket(MY_MMSI, u.session)]
  {
    var message, id := Owner(g, u.session), u.session;
    var i :| 0 <= i < FragmentCount(message) && u == FragmentOf(message, i, MY_MMSI, id);
    assert Sat.Accept(g.sat, u, 0) == Sat.HandleFragmentOf(g.sat, message, i, MY_MMSI, id);
    Sat.FragmentStep(g.sat, message, i, MY_MMSI, id);
  }

  lemma OwnFragment(g: System, u: Uplink)
    requires Inv(g) && u.Fragment? && u.ship == MY_MMSI
    requires u.session in g.latest && IsFragmentOf(u, Owner(g, u.session), u.session)
    ensures var o := Sat.Accept(g.sat, u, 0); Inv(SatelliteStep(g, o))
  {
    var o := Sat.Accept(g.sat, u, 0);
    OwnDelivery(g, u);
    AckOfDelivery(g, o, u.session);
    SatelliteStepKeeps(g, o);
  }

  /** The acknowledgement that goes out with a delivery is honest. */
  lemma AckOfDelivery(g: System, o: Sat.Out, id: byte)
    requires TakenInv(g) && id in g.latest
    requires o.delivered == [] || o.delivered == [Sat.Delivery(MY_MMSI, id, Owner(g, id))]
    requires o.packets == if o.delivered == [] then [] else [AckPacket(MY_MMSI, id)]
    ensures forall p :: p in o.packets ==> HonestAck(SatelliteStep(g, o), p)
  {
    AckRoundTrip(MY_MMSI, id);
    if o.delivered != [] {
      var d := o.delivered[0];
      assert d in o.delivered && Completes(g, d);
      assert g.latest[id] in SatelliteStep(g, o).completed;
    }
  }

  lemma AllocationKeeps(g: System, slot: Clock.Slot, pick: nat)
    requires Inv(g) && pick < DcChannels.CHANNELS
    ensures Inv(SatelliteStep(g, Sat.AllocationTimeout(g.sat, slot, pick)))
  {
    var o := Sat.AllocationTimeout(g.sat, slot, pick);
    AllocationIsNoAck(g, o);
    SatelliteStepKeeps(g, o);
  }

  lemma AllocationIsNoAck(g: System, o: Sat.Out)
    requires forall p :: p in o.packets ==> p != [] && p[0] == 12
    ensures forall p :: p in o.packets ==> HonestAck(SatelliteStep(g, o), p)
  {}

  lemma ToSatelliteKeeps(g: System, raw: seq<byte>, slot: Clock.Slot)
    requires Inv(g) && Enabled(g, ToSatellite(raw, slot))
    ensures Inv(SatelliteStep(g, Sat.Accept(g.sat, DecodeUplink(raw), slot)))
  {
    var u := DecodeUplink(raw);
    if u.Fragment? && u.ship == MY_MMSI {
      assert HonestPacket(g, raw) && FragmentUnder(raw, u.session);
      OwnFragment(g, u);
    } else if u.Fragment? {
      OtherShipFragment(g, u);
    } else {
      SatelliteStepKeeps(g, Sat.Accept(g.sat, u, slot));
    }
  }

  lemma DropKeeps(g: System, lost: set<seq<byte>>)
    requires Inv(g)
    ensures Inv(Apply(g, Drop(lost)))
  {
    var g' := Apply(g, Drop(lost));
    forall p | p in g'.toSat ensures HonestPacket(g', p) {
      assert HonestPacket(g, p);
    }
    forall p | p in g'.toShip ensures HonestAck(g', p) {
      assert HonestAck(g, p);
    }
  }

  lemma StepKeeps(g: System, step: Step)
    requires Inv(g) && Enabled(g, step) && Apply(g, step).fits && !Apply(g, step).reused
    ensures Inv(Apply(g, step))
  {
    match step
    case Ship(input) => ShipStepKeeps(g, input);
    case ToShip(raw) => ShipStepKeeps(g, Packet(raw));
    case ToSatellite(raw, slot) => ToSatelliteKeeps(g, raw, slot);
    case AllocationTimer(slot, pick) => AllocationKeeps(g, slot, pick);
    case SessionTimer(ship) => SatelliteStepKeeps(g, Sat.Quiet(Sat.Closed(g.sat, ship)));
    case DownlinkSend => SatelliteStepKeeps(g, Sat.Quiet(Sat.TakeId(g.sat)));
    case Drop(lost) => DropKeeps(g, lost);
  }

  // ---------- Runs ----------

  /** A run: every step is enabled where it is taken. */
  datatype Run = Begin(macLimit: byte) | Then(before: Run, step: Step) {
    function End(): (g: System)
      ensures Sound(g.ship)
    {
      match this
      case Begin(macLimit) => Start(macLimit)
      case Then(before, step) =>
        var g := before.End();
        if Enabled(g, step) then
          ApplySound(g, step);
          Apply(g, step)
        else g
    }
  }

  lemma ApplySound(g: System, step: Step)
    requires Sound(g.ship) && Enabled(g, step)
    ensures Sound(Apply(g, step).ship)
  {
    match step
    case Ship(input) => ReactSound(g.ship, input);
    case ToShip(raw) => ReactSound(g.ship, Packet(raw));
    case _ =>
  }

  /** Every run in which session ids are taken up only when settled keeps the invariant. */
  lemma {:induction false} RunKeeps(run: Run)
    requires run.End().fits && !run.End().reused
    ensures Inv(run.End())
  {
    if run.Then? && Enabled(run.before.End(), run.step) {
      RunKeeps(run.before);
      StepKeeps(run.before.End(), run.step);
    } else if run.Then? {
      RunKeeps(run.before);
    }
  }

  /** End to end: whatever the network loses, repeats or reorders, everything the satellite
      hands on for the ship, in any step, is the message of the last session the ship took up
      under that id. */
  lemma DeliveriesAreExact(before: Run, step: Step, d: Sat.Delivery)
    requires before.End().fits && !before.End().reused && Enabled(before.End(), step)
    requires d in SatelliteOut(before.End(), step).delivered && d.ship == MY_MMSI
    ensures Completes(before.End(), d)
  {
    RunKeeps(before);
    DeliveredNow(before.End(), step, d);
  }

  lemma DeliveredNow(g: System, step: Step, d: Sat.Delivery)
    requires Inv(g) && Enabled(g, step) && d in SatelliteOut(g, step).delivered && d.ship == MY_MMSI
    ensures Completes(g, d)
  {
    assert step.ToSatellite?;
    var u := DecodeUplink(step.raw);
    FragmentDelivers(g, u, step.slot, d);
    assert HonestPacket(g, step.raw) && FragmentUnder(step.raw, u.session);
    OwnDelivery(g, u);
  }

  lemma FragmentDelivers(g: System, u: Uplink, slot: Clock.Slot, d: Sat.Delivery)
    requires d in Sat.Accept(g.sat, u, slot).delivered
    ensures u.Fragment? && u.ship == d.ship && u.session == d.session && d in Sat.Accept(g.sat, u, 0).delivered
  {}

  /** When the ship reports success, the satellite has handed on the whole message of that very
      session, after the ship took it up. */
  lemma SuccessImpliesDelivery(before: Run, raw: seq<byte>)
    requires before.End().fits && !before.End().reused && Enabled(before.End(), ToShip(raw))
    requires Finished(true, Acknowledged) in React(before.End().ship, Packet(raw)).events
    ensures var g := before.End();
            && g.taken != [] && |g.taken| - 1 in g.completed
            && g.taken[|g.taken| - 1] == Session(g.ship.session, g.ship.message)
  {
    RunKeeps(before);
    ReportOnlyComplete(before.End(), Packet(raw));
  }

  /** The same for every session reported in the course of a run. */
  lemma ReportedAreComplete(run: Run)
    requires run.End().fits && !run.End().reused
    ensures run.End().reported <= run.End().completed
  {
    RunKeeps(run);
  }

  // ---------- A rule the ship itself can keep ----------

  /** No two sessions had the same id. */
  predicate IdsDiffer(taken: seq<Session>) {
    forall i, j :: 0 <= i < j < |taken| ==> taken[i].id != taken[j].id
  }

  ghost predicate LatestInv(g: System) {
    && (forall n :: 0 <= n < |g.taken| ==> g.taken[n].id in g.latest)
    && forall id :: id in g.latest ==> exists n :: 0 <= n < |g.taken| && g.taken[n].id == id
  }

  /** How the sessions grow: by one, upon an allocation, or not at all. */
  lemma LatestStep(g: System, step: Step)
    requires Sound(g.ship) && Enabled(g, step)
    ensures var g' := Apply(g, step);
            || (g'.taken == g.taken && g'.latest == g.latest)
            || (step.ToShip? && OneMore(g, g', Session(g'.ship.session, g'.ship.message)))
  {
    if Apply(g, step).taken != g.taken {
      OnlyGrantsActivate(g, step);
    }
  }

  predicate OneMore(g: System, g': System, s: Session) {
    g'.taken == g.taken + [s] && g'.latest == g.latest[s.id := |g.taken|]
  }

  lemma LatestInvKept(g: System, g': System, s: Session)
    requires LatestInv(g) && OneMore(g, g', s)
    ensures LatestInv(g')
    ensures IdsDiffer(g'.taken) ==> s.id !in g.latest
  {
    var n := |g.taken|;
    assert forall k :: 0 <= k < n ==> g'.taken[k] == g.taken[k];
    assert g'.taken[n] == s;
    forall id | id in g'.latest ensures exists k :: 0 <= k < |g'.taken| && g'.taken[k].id == id {
      if id != s.id {
        var k :| 0 <= k < |g.taken| && g.taken[k].id == id;
        assert g'.taken[k].id == id;
      }
    }
  }

  lemma OnlyGrantsActivate(g: System, step: Step)
    requires Sound(g.ship) && Enabled(g, step) && Apply(g, step).taken != g.taken
    ensures step.ToShip?
  {}

  /** In a run that takes up every session id at most once, every id is settled when taken up:
      a ship that remembers the ids it used can see to it. */
  lemma {:induction false} FreshIdsAreSettled(run: Run)
    requires run.End().fits && IdsDiffer(run.End().taken)
    ensures !run.End().reused && LatestInv(run.End())
  {
    if run.Then? {
      var g := run.before.End();
      if Enabled(g, run.step) {
        TakenGrows(g, run.step);
        FreshIdsAreSettled(run.before);
        RunKeeps(run.before);
        FreshStep(g, run.step);
      } else {
        FreshIdsAreSettled(run.before);
      }
    }
  }

  lemma FreshStep(g: System, step: Step)
    requires Inv(g) && !g.reused && LatestInv(g) && Enabled(g, step) && IdsDiffer(Apply(g, step).taken)
    ensures !Apply(g, step).reused && LatestInv(Apply(g, step))
  {
    var g' := Apply(g, step);
    LatestStep(g, step);
    if g'.taken == g.taken {
      ReusedOnlyOnTaking(g, step);
    } else {
      LatestInvKept(g, g', Session(g'.ship.session, g'.ship.message));
      UnusedIsSettled(g, g'.ship.session);
      TakenSettled(g, step);
    }
  }

  lemma ReusedOnlyOnTaking(g: System, step: Step)
    requires Sound(g.ship) && Enabled(g, step) && Apply(g, step).taken == g.taken
    ensures Apply(g, step).reused == g.reused
  {
    if step.Ship? || step.ToShip? {
      var input := if step.Ship? then step.input else Packet(step.raw);
      assert |ShipStep(g, input).taken| == |g.taken|;
    }
  }

  lemma TakenSettled(g: System, step: Step)
    requires Sound(g.ship) && Enabled(g, step) && !g.reused && Settled(g, Apply(g, step).ship.session)
    ensures !Apply(g, step).reused
  {}

  lemma TakenGrows(g: System, step: Step)
    requires Sound(g.ship) && Enabled(g, step)
    ensures g.taken <= Apply(g, step).taken
  {}
}
