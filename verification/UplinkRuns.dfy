/** Runs from the start: a clean message can always succeed, a message whose numbers wrap around
    can fail in any way, and each part of the rule on session ids can be broken on its own. */
module UplinkRuns {
  import opened Bytes
  import opened UplinkWire
  import opened UplinkShip
  import opened UplinkSystem
  import opened UplinkMixture
  import opened UplinkTakeUps
  import Sat = UplinkSatellite
  import DcChannels

  // ---------- From submission to take-up ----------

  function Idles(): Machine {
    Initial(MY_MMSI, 0)
  }

  /** The ship has asked for a channel for a message. */
  function Asks(message: seq<byte>): Machine {
    Idles().(message := message, state := Asc)
  }

  /** An idle ship submits a message and requests a channel. */
  function Asked(g: System, message: seq<byte>): System {
    g.(ship := Asks(message), toSat := g.toSat + {RequestPacket(MY_MMSI)}, fits := g.fits && Fits(message))
  }

  lemma NothingSent()
    ensures PacketsOf([]) == {}
  {}

  lemma PacketOfOne(e: Event)
    requires e.Requested? || e.Sent?
    ensures PacketsOf([e]) == {e.packet}
  {
    assert e in [e];
  }

  lemma SubmitAndAsk(g: System, message: seq<byte>)
    requires g.ship == Idles()
    ensures Leads(g, Asked(g, message))
  {
    LeadsStep(g, Ship(Submit(message, 0)));
    var submitted := Apply(g, Ship(Submit(message, 0)));
    NothingSent();
    assert submitted == g.(ship := Idles().(message := message, state := ResReq), fits := g.fits && Fits(message));
    LeadsStep(submitted, Ship(Slot(630)));
    PacketOfOne(Requested(630, RequestPacket(MY_MMSI)));
    assert Asked(g, message) == Apply(submitted, Ship(Slot(630)));
    LeadsOn(g, submitted, Asked(g, message));
  }

  lemma GrantOne(m: Machine, g: Grant)
    ensures GrantedAll(m, [g]) == Granted(m, g)
  {
    assert [g][..0] == [];
  }

  lemma TakeUpGrant(m: Machine, raw: seq<byte>, g: Grant)
    requires m.state == Asc && m.total == 0 && m.message != []
    requires DecodeAllocation(raw) == [g] && raw[0] == 12
    ensures Receive(m, raw) == Out(Granted(m, g), [])
  {
    GrantOne(m, g);
  }

  /** The allocation of channel 0 for session 1. */
  const GRANT1: seq<byte> := AllocationPacket(MY_MMSI, 0, 1)

  /** The ship has just taken up session 1 on channel 0. */
  predicate Takes1(m: Machine, message: seq<byte>) {
    && JustTaken(m, message) && Sound(m) && m.session == 1 && m.channel == 0 && m.mmsi == MY_MMSI
    && ToIdle(m) == Idles()
  }

  lemma TakeUp(message: seq<byte>)
    requires message != []
    ensures Takes1(Receive(Asks(message), GRANT1).m, message) && Receive(Asks(message), GRANT1).events == []
  {
    AllocationRoundTrip(MY_MMSI, 0, 1);
    TakeUpGrant(Asks(message), GRANT1, Grant(0, 21, 1));
    GrantedSound(Asks(message), Grant(0, 21, 1));
  }

  /** Session 1 is taken up. */
  function TakenUp1(g: System, message: seq<byte>): System {
    g.(ship := Receive(Asks(message), GRANT1).m, taken := g.taken + [Session(1, message)],
       latest := g.latest[1 := |g.taken|], reused := g.reused || !Settled(g, 1))
  }

  lemma TakeUp1(g: System, message: seq<byte>)
    requires message != [] && g.ship == Asks(message) && GRANT1 in g.toShip
    ensures Enabled(g, ToShip(GRANT1)) && TakesUp(g, GRANT1, 1)
    ensures ShipStep(g, Packet(GRANT1)) == TakenUp1(g, message) && Takes1(TakenUp1(g, message).ship, message)
    ensures Leads(g, TakenUp1(g, message))
  {
    TakeUp(message);
    TakeUpWith(g, GRANT1, 1);
  }

  lemma TakeUpWith(g: System, raw: seq<byte>, id: byte)
    requires Sound(g.ship) && raw in g.toShip && TakesUp(g, raw, id)
    ensures Enabled(g, ToShip(raw)) && Leads(g, ShipStep(g, Packet(raw)))
    ensures ShipStep(g, Packet(raw))
         == g.(ship := Receive(g.ship, raw).m, taken := g.taken + [Session(id, g.ship.message)],
               latest := g.latest[id := |g.taken|], reused := g.reused || !Settled(g, id))
  {
    LeadsStep(g, ToShip(raw));
    TakenUp(g, raw, id);
  }

  /** The satellite answers the first request. */
  lemma Answer1(g: System) returns (g': System)
    requires Sound(g.ship) && g.sat == Sat.Initial() && RequestPacket(MY_MMSI) in g.toSat
    ensures Leads(g, g') && g' == g.(sat := g'.sat, toShip := g.toShip + {GRANT1}) && Tracks(g'.sat, 1, Fresh())
  {
    RequestRoundTrip(MY_MMSI);
    AnswerFirst();
    LeadsStep(g, ToSatellite(RequestPacket(MY_MMSI), 700));
    var requested := Apply(g, ToSatellite(RequestPacket(MY_MMSI), 700));
    Unheard(g, Sat.HandleRequest(Sat.Initial(), MY_MMSI, 700));
    LeadsStep(requested, AllocationTimer(810, 0));
    g' := Apply(requested, AllocationTimer(810, 0));
    LeadsOn(g, requested, g');
    assert (set p | p in [GRANT1]) == {GRANT1};
  }

  lemma AnswerFirst()
    ensures var s := Sat.HandleRequest(Sat.Initial(), MY_MMSI, 700);
            var o := Sat.AllocationTimeout(s, 810, 0);
            && o.packets == [GRANT1] && o.delivered == [] && Tracks(o.s, 1, Fresh())
  {
    assert DcChannels.LeastFree({}) == 0;
  }

  /** The state before the first take-up: one request and one allocation in flight. */
  ghost predicate Answered(g: System, message: seq<byte>) {
    && Leads(Start(0), g) && g.ship == Asks(message) && Tracks(g.sat, 1, Fresh())
    && g.toSat == {RequestPacket(MY_MMSI)} && g.toShip == {GRANT1}
    && g.taken == [] && g.latest == map[] && !g.reused && g.completed == {} && g.reported == {}
    && g.fits == Fits(message)
  }

  lemma FirstAnswered(message: seq<byte>) returns (g: System)
    ensures Answered(g, message)
  {
    SubmitAndAsk(Start(0), message);
    g := Answer1(Asked(Start(0), message));
    LeadsOn(Start(0), Asked(Start(0), message), g);
  }

  lemma AnsweredIsSettled(g: System, message: seq<byte>)
    requires Answered(g, message)
    ensures Settled(g, 1)
  {
    RequestRoundTrip(MY_MMSI);
    assert GRANT1[0] == 12;
  }

  // ---------- Messages that wrap around ----------

  /** In some run with settled ids, the message is reported as sent and was not handed on. */
  ghost predicate CanBeMisled(message: seq<byte>) {
    exists run: Run, n: nat :: !run.End().reused && Misled(run.End(), n)
                          && n < |run.End().taken| && run.End().taken[n].message == message
  }

  /** With settled ids, a message can be reported falsely exactly when its numbers can wrap
      around: it has more than 65536 fragments, and the satellite can count up to the number of
      the last one. */
  lemma MisledIffWraps(message: seq<byte>)
    ensures CanBeMisled(message) <==> Sat.CanWrap(message)
  {
    if CanBeMisled(message) {
      var run: Run, n: nat :| !run.End().reused && Misled(run.End(), n)
                         && n < |run.End().taken| && run.End().taken[n].message == message;
      MisledWraps(run, n);
    }
    if Sat.CanWrap(message) {
      var g := WrapsFromStart(message);
      var run := RunTo(Begin(0), g);
      assert Misled(run.End(), 0);
    }
  }

  lemma ShapeWhereLed(g: System)
    requires Leads(Start(0), g)
    ensures Shape(g)
  {
    var run := RunTo(Begin(0), g);
    AlwaysShape(run);
  }

  lemma WrapsFromStart(message: seq<byte>) returns (g: System)
    requires Sat.CanWrap(message)
    ensures Leads(Start(0), g) && !g.reused && Misled(g, 0) && g.taken == [Session(1, message)]
  {
    var answered := FirstAnswered(message);
    AnsweredIsSettled(answered, message);
    SettledIsAlone(answered, 1);
    AloneMixableIff(message, 1);
    TakeUp1(answered, message);
    var taken := TakenUp1(answered, message);
    LeadsOn(Start(0), answered, taken);
    ShapeWhereLed(answered);
    ShapeWhereLed(taken);
    g := MixtureEndsIt(answered, GRANT1, 1);
    LeadsOn(Start(0), taken, g);
  }

  // ---------- The first message ----------

  /** The fragments of a clean message, in order, make up the message. */
  lemma WholeMessage(message: seq<byte>, id: byte) returns (us: seq<Uplink>)
    requires message != [] && Fits(message) && Sat.NoFileMarker(message)
    ensures AllFragments(us) && AllAvailable(us, {}, message, id) && FeedAll(Fresh(), us) == Delivered(message)
    ensures forall k :: 0 <= k < |us| ==> IsFragmentOf(us[k], message, id)
  {
    var o, e := Old([], {}), FragmentCount(message) - 1;
    assert o.Fragments(id) == {} && HeldOf(o, 0) == Fresh();
    var cs, front := Fill(o, message, 0, e, 0, id);
    var u := FragmentOf(message, e, MY_MMSI, id);
    us := front + [u];
    MoreAvailable(o, message, front, message, e, id);
    FeedNext(Fresh(), front, u);
    FeedOf(Waiting(e, Join(cs)), message, e, id);
    MixtureFull(o, message, 0, cs);
    JoinIsMessageIff(cs, Chunk(message, e), message);
    forall k | 0 <= k < |us| ensures IsFragmentOf(us[k], message, id) {
      assert Available(us[k], {}, message, id);
    }
  }

  /** The first message was sent, handed on, acknowledged and reported, and the ship is idle. */
  ghost predicate FirstDone(g: System, message: seq<byte>) {
    && Leads(Start(0), g) && g.ship == Idles() && OnlyFirst(g, message)
    && AckPacket(MY_MMSI, 1) in g.toShip && MY_MMSI !in g.sat.sessions
    && forall u :: IsFragmentOf(u, message, 1) ==> u in InFlight(g, 1)
  }

  predicate OnlyFirst(g: System, message: seq<byte>) {
    && g.taken == [Session(1, message)] && g.latest == map[1 := 0] && !g.reused && g.fits
    && g.completed == {0} && g.reported == {0} && GRANT1 in g.toShip
  }

  /** From the start to the satellite's acknowledgement of the whole first message. */
  lemma FirstMessage(message: seq<byte>) returns (g: System)
    requires message != [] && Fits(message) && Sat.NoFileMarker(message)
    ensures FirstDone(g, message)
  {
    var answered := FirstAnswered(message);
    AnsweredIsSettled(answered, message);
    SettledIsAlone(answered, 1);
    TakeUp1(answered, message);
    var taken := TakenUp1(answered, message);
    LeadsOn(Start(0), answered, taken);
    g := FirstSent(taken, message);
    LeadsOn(Start(0), taken, g);
  }

  /** From the take-up on. */
  lemma FirstSent(g: System, message: seq<byte>) returns (g': System)
    requires Fits(message) && Sat.NoFileMarker(message) && Takes1(g.ship, message)
    requires g.taken == [Session(1, message)] && g.latest == map[1 := 0] && g.completed == {} && g.reported == {}
    ensures Leads(g, g') && g'.ship == Idles() && g'.completed == {0} && g'.reported == {0}
    ensures g'.taken == g.taken && g'.latest == g.latest && g'.reused == g.reused && g'.fits == g.fits
    ensures g.toShip <= g'.toShip && AckPacket(MY_MMSI, 1) in g'.toShip && MY_MMSI !in g'.sat.sessions
    ensures forall u :: IsFragmentOf(u, message, 1) ==> u in InFlight(g', 1)
  {
    var us := WholeMessage(message, 1);
    MoreInFlight(us, InFlight(g, 1), message, 1);
    var sent := MixIt(g, 1, Fresh(), us);
    FirstCompletes(g, message);
    Acknowledge(sent);
    g' := Reported(sent);
    LeadsOn(g, sent, g');
    assert InFlight(g', 1) == InFlight(sent, 1);
  }

  lemma MoreInFlight(us: seq<Uplink>, stale: set<Uplink>, message: seq<byte>, id: byte)
    requires AllAvailable(us, {}, message, id)
    ensures AllAvailable(us, stale, message, id)
  {
    forall k | 0 <= k < |us| ensures Available(us[k], stale, message, id) {
      assert Available(us[k], {}, message, id);
    }
  }

  lemma FirstCompletes(g: System, message: seq<byte>)
    requires g.taken == [Session(1, message)] && g.latest == map[1 := 0]
    ensures Completes(g, Sat.Delivery(MY_MMSI, 1, message)) && g.latest[1] == 0
  {}

  ghost predicate CanSucceed(message: seq<byte>) {
    exists run: Run, n :: run.End().fits && !run.End().reused && n in run.End().reported
                          && n < |run.End().taken| && run.End().taken[n].message == message
  }

  /** A message can be reported as sent, in some run that takes up only settled session ids,
      exactly when none of its chunks starts with the file marker. */
  lemma CanSucceedIffNoMarker(message: seq<byte>)
    requires message != [] && Fits(message)
    ensures CanSucceed(message) <==> Sat.NoFileMarker(message)
  {
    if Sat.NoFileMarker(message) {
      var g := FirstMessage(message);
      var run := RunTo(Begin(0), g);
      assert 0 in run.End().reported;
    }
    if CanSucceed(message) {
      var run: Run, n :| run.End().fits && !run.End().reused && n in run.End().reported
                         && n < |run.End().taken| && run.End().taken[n].message == message;
      RunKeeps(run);
    }
  }

  // ---------- Each part of the rule on session ids can be broken alone ----------

  /** The first message is done, and the ship has asked for a channel for the second. */
  ghost predicate SecondAsked(g: System, first: seq<byte>, second: seq<byte>) {
    Leads(Start(0), g) && g.ship == Asks(second) && OnlyFirst(g, first)
  }

  lemma FirstThenAsk(first: seq<byte>, second: seq<byte>) returns (g: System)
    requires first != [] && Fits(first) && Sat.NoFileMarker(first) && Fits(second)
    ensures SecondAsked(g, first, second) && AckPacket(MY_MMSI, 1) in g.toShip && MY_MMSI !in g.sat.sessions
    ensures forall u :: IsFragmentOf(u, first, 1) ==> u in InFlight(g, 1)
  {
    var done := FirstMessage(first);
    SubmitAndAsk(done, second);
    g := Asked(done, second);
    LeadsOn(Start(0), done, g);
    assert InFlight(done, 1) <= InFlight(g, 1);
  }

  /** A run with settled ids so far, in which the ship is about to take up the id of its first
      message for its second. */
  ghost predicate TakesUpAgain(at: Run, first: seq<byte>, second: seq<byte>) {
    var g := at.End();
    && g.fits && !g.reused && g.taken == [Session(1, first)] && g.ship.message == second
    && Enabled(g, ToShip(GRANT1)) && TakesUp(g, GRANT1, 1)
  }

  /** The state at the end of a run, and what the theorem on take-ups says of it. */
  lemma AtTakeUp(g: System, first: seq<byte>, second: seq<byte>) returns (at: Run)
    requires SecondAsked(g, first, second) && second != []
    ensures at.End() == g && TakesUpAgain(at, first, second)
    ensures CanMislead(Then(at, ToShip(GRANT1)), 1) <==> !NoAcks(g, 1) || TakeUpOf(g, 1).CanMix()
  {
    at := RunTo(Begin(0), g);
    TakeUp1(g, second);
    TakeUpMisleadsIff(at, GRANT1, 1);
  }

  /** The network loses packets, but not the allocation. */
  lemma Lose(g: System, first: seq<byte>, second: seq<byte>, lost: set<seq<byte>>) returns (g': System)
    requires SecondAsked(g, first, second) && GRANT1 !in lost
    ensures SecondAsked(g', first, second) && g' == g.(toSat := g.toSat - lost, toShip := g.toShip - lost)
  {
    LeadsStep(g, Drop(lost));
    g' := Apply(g, Drop(lost));
    LeadsOn(Start(0), g, g');
  }

  function Acks1(): set<seq<byte>> {
    {AckPacket(MY_MMSI, 1)}
  }

  function Fragments1(g: System): set<seq<byte>> {
    set p | p in g.toSat && FragmentUnder(p, 1)
  }

  lemma WhatIsWhat(g: System)
    ensures GRANT1 !in Acks1() && GRANT1 !in Fragments1(g)
    ensures AckPacket(MY_MMSI, 1) !in Fragments1(g)
  {
    assert GRANT1[0] == 12 && AckPacket(MY_MMSI, 1)[0] == 13;
  }

  lemma AcksLost(g: System, g': System)
    requires Leads(Start(0), g) && g'.toShip <= g.toShip - Acks1()
    ensures NoAcks(g', 1)
  {
    ShapeWhereLed(g);
    forall p | p in g'.toShip ensures !AckUnder(p, 1) {
      assert FromSatellite(p);
    }
  }

  lemma AckIsUnder1(g: System)
    requires AckPacket(MY_MMSI, 1) in g.toShip
    ensures !NoAcks(g, 1)
  {
    AckRoundTrip(MY_MMSI, 1);
    assert AckUnder(AckPacket(MY_MMSI, 1), 1);
  }

  /** An old acknowledgement: an allocation of a finished session, delivered a second time,
      makes any next message run under the old session id, and the old acknowledgement can then
      report it as sent. */
  lemma FalseSuccess(first: seq<byte>, second: seq<byte>) returns (at: Run)
    requires first != [] && Fits(first) && Sat.NoFileMarker(first) && second != [] && Fits(second)
    ensures TakesUpAgain(at, first, second) && CanMislead(Then(at, ToShip(GRANT1)), 1)
    ensures NoFragments(at.End(), 1) && NothingHeld(at.End(), 1)
  {
    var asked := FirstThenAsk(first, second);
    WhatIsWhat(asked);
    var g := Lose(asked, first, second, Fragments1(asked));
    AckIsUnder1(g);
    at := AtTakeUp(g, first, second);
  }

  /** Old fragments: they can arrive in the place of the new ones, so that the old message is
      handed on a second time. */
  lemma OldFragmentsMislead(first: seq<byte>, second: seq<byte>) returns (at: Run)
    requires first != [] && Fits(first) && Sat.NoFileMarker(first)
    requires second != [] && second != first && Fits(second)
    ensures TakesUpAgain(at, first, second) && CanMislead(Then(at, ToShip(GRANT1)), 1)
    ensures NoAcks(at.End(), 1) && NothingHeld(at.End(), 1)
  {
    var asked := FirstThenAsk(first, second);
    WhatIsWhat(asked);
    var g := Lose(asked, first, second, Acks1());
    AcksLost(asked, g);
    var us := WholeMessage(first, 1);
    forall k | 0 <= k < |us| ensures Available(us[k], InFlight(g, 1), second, 1) {
      StillInFlight(asked, g, us[k]);
    }
    assert Reached(Delivered(first), HeldNow(g.sat, 1), InFlight(g, 1), second, 1);
    at := AtTakeUp(g, first, second);
  }

  lemma StillInFlight(g: System, g': System, u: Uplink)
    requires u in InFlight(g, 1) && g'.toSat == g.toSat - Acks1()
    ensures u in InFlight(g', 1) && Under(u, 1)
  {
    var p :| p in g.toSat && FragmentUnder(p, 1) && u == DecodeUplink(p);
    assert AckPacket(MY_MMSI, 1)[0] == 13;
    assert p in g'.toSat;
  }

  /** The satellite has heard the first fragment of the first message again. */
  lemma HoldFirstChunk(g: System, first: seq<byte>, second: seq<byte>) returns (g': System)
    requires SecondAsked(g, first, second) && FragmentCount(first) > 1 && Fits(first) && Sat.NoFileMarker(first)
    requires forall u :: IsFragmentOf(u, first, 1) ==> u in InFlight(g, 1)
    ensures SecondAsked(g', first, second) && Tracks(g'.sat, 1, HeldOf(Old(first, {}), 1))
  {
    var open := Reopen(g, 1);
    var u := FragmentOf(first, 0, MY_MMSI, 1);
    assert IsFragmentOf(u, first, 1) && u in InFlight(open, 1);
    FeedOf(Fresh(), first, 0, 1);
    assert Chunk(first, 0) == Prefix(first, 1);
    assert FeedAll(Fresh(), [] + [u]) == HeldOf(Old(first, {}), 1) by {
      FeedNext(Fresh(), [], u);
    }
    g' := HearWaiting(open, 1, Fresh(), [] + [u]);
    LeadsOn(g, open, g');
    LeadsOn(Start(0), g, g');
  }

  /** Held data: nothing under the id is in flight, but the satellite holds the beginning of the
      first message under it.  When the first fragment of the second message is lost, the others
      complete a mixture of both. */
  lemma HeldDataMisleads(first: seq<byte>, second: seq<byte>) returns (at: Run)
    requires FragmentCount(first) > 1 && Fits(first) && Sat.NoFileMarker(first)
    requires FragmentCount(second) > 1 && Fits(second) && Sat.NoFileMarker(second)
    requires Prefix(first, 1) != Prefix(second, 1)
    ensures TakesUpAgain(at, first, second) && CanMislead(Then(at, ToShip(GRANT1)), 1)
    ensures NoAcks(at.End(), 1) && NoFragments(at.End(), 1)
  {
    var asked := FirstThenAsk(first, second);
    var held := HoldFirstChunk(asked, first, second);
    WhatIsWhat(held);
    var g := Lose(held, first, second, Acks1() + Fragments1(held));
    AcksLost(held, g);
    var o := Old(first, {});
    HeldMixes(o, second);
    MixableIff(o, second, 1, 1);
    assert InFlight(g, 1) == {} == o.Fragments(1);
    at := AtTakeUp(g, first, second);
  }

  lemma HeldMixes(o: Old, message: seq<byte>)
    requires FragmentCount(message) > 1 && Sat.NoFileMarker(message) && Prefix(o.message, 1) != Prefix(message, 1)
    ensures MixesFrom(o, message, 1, Apart(o, message, 1))
  {
    var e := FragmentCount(message) - 1;
    assert Final(message, e) && EndsWrong(o, message, 1, true, e);
  }
}
