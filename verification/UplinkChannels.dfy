/** Whole runs of the satellite's uplink side (SatelliteSim/simulator.cpp): which channels stay
    taken without a holder, when two sessions share one, and how often a session can deliver. */
module UplinkChannels {
  import opened Bytes
  import opened UplinkWire
  import opened UplinkSatellite
  import opened DcChannels
  import opened SlotClock
  import opened Allocation

  datatype Event =
    | Heard(u: Uplink, slot: Slot)
    | AllocationTimer(slot: Slot, pick: nat)
    | SessionTimer(ship: u32)
    | DownlinkId

  predicate Possible(e: Event) {
    e.AllocationTimer? ==> e.pick < CHANNELS
  }

  function Happen(s: Satellite, e: Event): Out
    requires Possible(e)
  {
    match e
    case Heard(u, slot) => Accept(s, u, slot)
    case AllocationTimer(slot, pick) => AllocationTimeout(s, slot, pick)
    case SessionTimer(ship) => Quiet(Closed(s, ship))
    case DownlinkId => Quiet(TakeId(s))
  }

  predicate AllPossible(events: seq<Event>) {
    forall k :: 0 <= k < |events| ==> Possible(events[k])
  }

  function After(events: seq<Event>): Satellite
    requires AllPossible(events)
  {
    if events == [] then Initial() else Happen(After(events[..|events| - 1]), events[|events| - 1]).s
  }

  predicate HeldBy(s: Satellite, c: int, ship: u32) {
    ship in s.sessions && s.sessions[ship].channel == c
  }

  ghost predicate Held(s: Satellite, c: int) {
    exists x :: HeldBy(s, c, x)
  }

  predicate Within(c: int) {
    0 <= c < CHANNELS
  }

  /** Of every reachable state: channels are the six, and the session that waits for its
      allocation has none yet. */
  predicate Regular(s: Satellite) {
    && (forall c :: c in s.occupied ==> Within(c))
    && (forall x :: x in s.sessions ==> s.sessions[x].channel == -1 || Within(s.sessions[x].channel))
    && (s.pending && s.pendingShip in s.sessions ==> s.sessions[s.pendingShip].channel == -1)
  }

  lemma ClosedRegular(s: Satellite, ship: u32)
    requires Regular(s)
    ensures Regular(Closed(s, ship))
  {}

  lemma StepRegular(s: Satellite, e: Event)
    requires Regular(s) && Possible(e)
    ensures Regular(Happen(s, e).s)
  {
    if e.Heard? && e.u.Fragment? {
      ClosedRegular(s, e.u.ship);
    } else if e.SessionTimer? {
      ClosedRegular(s, e.ship);
    }
  }

  lemma {:induction false} AlwaysRegular(events: seq<Event>)
    requires AllPossible(events)
    ensures Regular(After(events))
  {
    if events != [] {
      AlwaysRegular(events[..|events| - 1]);
      StepRegular(After(events[..|events| - 1]), events[|events| - 1]);
    }
  }

  // ---------- Channels taken without a holder ----------

  /** The channel is taken, but no session holds it, so no session's end will free it. */
  ghost predicate Leaked(s: Satellite, c: int) {
    c in s.occupied && !Held(s, c)
  }

  /** The allocation timer gives out channel `c`. */
  predicate GivesOut(s: Satellite, e: Event, c: int)
    requires Possible(e)
  {
    e.AllocationTimer? && s.pending && WithinGuard(e.slot, s.pendingSlot) && ChannelFor(s.occupied, e.pick) == c
  }

  /** The two ways to lose a channel: its only holder requests again, or it is given to a ship
      whose session is gone by then. */
  ghost predicate Abandons(s: Satellite, e: Event, c: int)
    requires Possible(e)
  {
    || (e.Heard? && e.u.Request? && HeldBy(s, c, e.u.ship) && c in s.occupied
        && forall x :: x != e.u.ship ==> !HeldBy(s, c, x))
    || (GivesOut(s, e, c) && s.pendingShip !in s.sessions && !Held(s, c))
  }

  /** A leaked channel is only recovered by chance: when all six are taken, the random choice
      can give it to a session again. */
  predicate Recovers(s: Satellite, e: Event, c: int)
    requires Possible(e)
  {
    GivesOut(s, e, c) && s.pendingShip in s.sessions
  }

  lemma HolderElsewhere(s: Satellite, s': Satellite, ship: u32, c: int)
    requires forall x :: x != ship ==> (x in s'.sessions <==> x in s.sessions)
    requires forall x :: x != ship && x in s.sessions ==> s'.sessions[x].channel == s.sessions[x].channel
    ensures forall x :: x != ship ==> (HeldBy(s', c, x) <==> HeldBy(s, c, x))
  {}

  lemma RequestLeaks(s: Satellite, ship: u32, slot: Slot, c: int)
    requires Regular(s)
    ensures var e := Heard(Request(ship), slot);
            Leaked(HandleRequest(s, ship, slot), c) <==> Leaked(s, c) || Abandons(s, e, c)
  {
    var s' := HandleRequest(s, ship, slot);
    HolderElsewhere(s, s', ship, c);
    if c in s.occupied {
      assert !HeldBy(s', c, ship);
      if Leaked(s, c) {
        assert !HeldBy(s, c, ship);
      }
    }
  }

  lemma CloseLeaks(s: Satellite, ship: u32, c: int)
    requires Regular(s)
    ensures Leaked(Closed(s, ship), c) <==> Leaked(s, c)
  {
    var s' := Closed(s, ship);
    HolderElsewhere(s, s', ship, c);
    assert !HeldBy(s', c, ship);
    if Leaked(s', c) {
      assert !HeldBy(s, c, ship);
    } else if c in s'.occupied {
      var x :| HeldBy(s', c, x);
      assert HeldBy(s, c, x);
    } else if c in s.occupied {
      assert HeldBy(s, c, ship);
    }
  }

  predicate SameChannels(s: Satellite, s': Satellite) {
    && s'.sessions.Keys == s.sessions.Keys && s'.occupied == s.occupied
    && forall x :: x in s.sessions ==> s'.sessions[x].channel == s.sessions[x].channel
  }

  /** A fragment closes its session or leaves every channel where it is. */
  lemma ClosesOrKeeps(s: Satellite, u: Uplink, slot: Slot)
    requires u.Fragment?
    ensures Accept(s, u, slot).s == Closed(s, u.ship) || SameChannels(s, Accept(s, u, slot).s)
  {}

  lemma FragmentLeaks(s: Satellite, u: Uplink, slot: Slot, c: int)
    requires Regular(s) && u.Fragment?
    ensures Leaked(Accept(s, u, slot).s, c) <==> Leaked(s, c)
  {
    ClosesOrKeeps(s, u, slot);
    CloseLeaks(s, u.ship, c);
    if SameChannels(s, Accept(s, u, slot).s) {
      ChannelsLeaked(s, Accept(s, u, slot).s, c);
    }
  }

  lemma ChannelsLeaked(s: Satellite, s': Satellite, c: int)
    requires SameChannels(s, s')
    ensures Leaked(s', c) <==> Leaked(s, c)
  {
    if x :| HeldBy(s', c, x) {
      assert HeldBy(s, c, x);
    }
    if x :| HeldBy(s, c, x) {
      assert HeldBy(s', c, x);
    }
  }

  lemma TimerLeaks(s: Satellite, e: Event, c: int)
    requires Regular(s) && e.AllocationTimer? && Possible(e)
    ensures Leaked(Happen(s, e).s, c) <==> (Leaked(s, c) && !Recovers(s, e, c)) || Abandons(s, e, c)
  {
    var s' := Happen(s, e).s;
    if GivesOut(s, e, ChannelFor(s.occupied, e.pick)) && s.pendingShip in s.sessions {
      TimerToSession(s, e, c);
    } else {
      SameHolders(s, s', c);
    }
  }

  lemma SameHolders(s: Satellite, s': Satellite, c: int)
    requires s'.sessions == s.sessions
    ensures Held(s', c) <==> Held(s, c)
  {
    if x :| HeldBy(s', c, x) {
      assert HeldBy(s, c, x);
    }
    if x :| HeldBy(s, c, x) {
      assert HeldBy(s', c, x);
    }
  }

  lemma TimerToSession(s: Satellite, e: Event, c: int)
    requires Regular(s) && e.AllocationTimer? && Possible(e) && s.pendingShip in s.sessions
    requires GivesOut(s, e, ChannelFor(s.occupied, e.pick))
    ensures Leaked(Happen(s, e).s, c) <==> Leaked(s, c) && !Recovers(s, e, c)
  {
    var s', given, ship := Happen(s, e).s, ChannelFor(s.occupied, e.pick), s.pendingShip;
    HolderElsewhere(s, s', ship, c);
    assert HeldBy(s', given, ship) && s'.occupied == s.occupied + {given};
    if c != given {
      assert !HeldBy(s', c, ship);
      assert c in s.occupied ==> !HeldBy(s, c, ship);
    }
  }

  /** Exactly when a channel is leaked after an event, for every state and every event. */
  lemma LeakedIff(s: Satellite, e: Event, c: int)
    requires Regular(s) && Possible(e)
    ensures Leaked(Happen(s, e).s, c) <==> (Leaked(s, c) && !Recovers(s, e, c)) || Abandons(s, e, c)
  {
    match e
    case Heard(u, slot) =>
      if u.Request? {
        RequestLeaks(s, u.ship, slot, c);
      } else if u.Fragment? {
        FragmentLeaks(s, u, slot, c);
      }
    case AllocationTimer(_, _) => TimerLeaks(s, e, c);
    case SessionTimer(ship) => CloseLeaks(s, ship, c);
    case DownlinkId =>
      SameHolders(s, TakeId(s), c);
  }

  /** Every taken channel is held by a session. */
  ghost predicate AllHeld(s: Satellite) {
    forall c :: !Leaked(s, c)
  }

  /** At every point of the run. */
  ghost predicate AlwaysHeld(events: seq<Event>)
    requires AllPossible(events)
  {
    forall n :: 0 <= n <= |events| ==> AllHeld(After(events[..n]))
  }

  /** Event `n` of the run abandons a channel. */
  ghost predicate AbandonsAt(events: seq<Event>, n: nat)
    requires AllPossible(events) && n < |events|
  {
    exists c :: Abandons(After(events[..n]), events[n], c)
  }

  lemma AfterNext(events: seq<Event>, n: nat)
    requires AllPossible(events) && n < |events|
    ensures After(events[..n + 1]) == Happen(After(events[..n]), events[n]).s
  {
    assert events[..n + 1][..n] == events[..n];
  }

  lemma HeldNextIff(events: seq<Event>, n: nat)
    requires AllPossible(events) && n < |events| && AllHeld(After(events[..n]))
    ensures AllHeld(After(events[..n + 1])) <==> !AbandonsAt(events, n)
  {
    AfterNext(events, n);
    AlwaysRegular(events[..n]);
    AllHeldIff(After(events[..n]), events[n]);
  }

  lemma AllHeldIff(s: Satellite, e: Event)
    requires Regular(s) && Possible(e) && AllHeld(s)
    ensures AllHeld(Happen(s, e).s) <==> !exists c :: Abandons(s, e, c)
  {
    if c :| Abandons(s, e, c) {
      LeakedIff(s, e, c);
    }
    if c :| Leaked(Happen(s, e).s, c) {
      LeakedIff(s, e, c);
    }
  }

  lemma {:induction false} HeldSoFar(events: seq<Event>, n: nat)
    requires AllPossible(events) && n <= |events| && forall k :: 0 <= k < n ==> !AbandonsAt(events, k)
    ensures AllHeld(After(events[..n]))
  {
    if n > 0 {
      HeldSoFar(events, n - 1);
      HeldNextIff(events, n - 1);
    }
  }

  /** The satellite keeps its channels together in exactly the runs in which no ship requests
      again while it holds a channel alone, and no answer comes after its session is gone. */
  lemma AlwaysHeldIff(events: seq<Event>)
    requires AllPossible(events)
    ensures AlwaysHeld(events) <==> forall n :: 0 <= n < |events| ==> !AbandonsAt(events, n)
  {
    if AlwaysHeld(events) {
      forall n | 0 <= n < |events| ensures !AbandonsAt(events, n) {
        assert AllHeld(After(events[..n])) && AllHeld(After(events[..n + 1]));
        HeldNextIff(events, n);
      }
    }
    if forall k :: 0 <= k < |events| ==> !AbandonsAt(events, k) {
      forall n | 0 <= n <= |events| ensures AllHeld(After(events[..n])) {
        HeldSoFar(events, n);
      }
    }
  }

  lemma AfterThree(a: Event, b: Event, c: Event)
    requires Possible(a) && Possible(b) && Possible(c)
    ensures After([a, b, c]) == Happen(Happen(Happen(Initial(), a).s, b).s, c).s
  {
    assert After([a]) == Happen(Initial(), a).s by {
      assert [a][..0] == [];
    }
    assert After([a, b]) == Happen(After([a]), b).s by {
      assert [a, b][..1] == [a];
    }
    assert [a, b, c][..2] == [a, b];
  }

  /** Both happen from the start, to any ship: asking again after an answer, and a session
      that times out before its answer. */
  lemma LeaksHappen(ship: u32)
    ensures Leaked(After([Heard(Request(ship), 700), AllocationTimer(810, 0), Heard(Request(ship), 900)]), 0)
    ensures Leaked(After([Heard(Request(ship), 700), SessionTimer(ship), AllocationTimer(810, 0)]), 0)
  {
    var ask, ask', answer, gone := Heard(Request(ship), 700), Heard(Request(ship), 900), AllocationTimer(810, 0),
      SessionTimer(ship);
    AfterThree(ask, answer, ask');
    AfterThree(ask, gone, answer);
    assert LeastFree({}) == 0;
  }

  // ---------- Channels with two holders ----------

  /** Held channels are taken, and no two sessions hold the same one. */
  ghost predicate Exclusive(s: Satellite) {
    && (forall x :: x in s.sessions && s.sessions[x].channel >= 0 ==> s.sessions[x].channel in s.occupied)
    && (forall x, y :: x in s.sessions && y in s.sessions && x != y ==>
          s.sessions[x].channel != s.sessions[y].channel || s.sessions[x].channel < 0)
  }

  /** All six channels are taken, and the random choice falls on one that a session holds. */
  ghost predicate Shares(s: Satellite, e: Event)
    requires Possible(e)
  {
    && e.AllocationTimer? && GivesOut(s, e, e.pick) && LeastFree(s.occupied) == -1
    && s.pendingShip in s.sessions && exists x :: HeldBy(s, e.pick, x)
  }

  lemma ClosedExclusive(s: Satellite, ship: u32)
    requires Exclusive(s)
    ensures Exclusive(Closed(s, ship))
  {}

  lemma AllocationExclusiveIff(s: Satellite, e: Event)
    requires Regular(s) && Exclusive(s) && Possible(e) && e.AllocationTimer?
    ensures Exclusive(Happen(s, e).s) <==> !Shares(s, e)
  {
    var c, ship := ChannelFor(s.occupied, e.pick), s.pendingShip;
    var s' := Happen(s, e).s;
    if GivesOut(s, e, c) && ship in s.sessions {
      assert !HeldBy(s, c, ship);
      assert forall x :: x in s.sessions && x != ship ==> s'.sessions[x] == s.sessions[x];
      if x :| HeldBy(s, c, x) {
        assert c in s.occupied && c == e.pick;
        assert s'.sessions[x].channel == s'.sessions[ship].channel;
      } else {
        forall x | x in s'.sessions && x != ship ensures s'.sessions[x].channel != c {
          assert !HeldBy(s, c, x);
        }
      }
    } else {
      assert s'.sessions == s.sessions;
    }
  }

  /** Exactly when sessions stop having channels of their own. */
  lemma ExclusiveIff(s: Satellite, e: Event)
    requires Regular(s) && Exclusive(s) && Possible(e)
    ensures Exclusive(Happen(s, e).s) <==> !Shares(s, e)
  {
    match e
    case AllocationTimer(_, _) => AllocationExclusiveIff(s, e);
    case SessionTimer(ship) => ClosedExclusive(s, ship);
    case Heard(u, slot) =>
      if u.Fragment? {
        FragmentExclusive(s, u, slot);
      } else if u.Request? {
        assert s.sessions.Keys <= HandleRequest(s, u.ship, slot).sessions.Keys;
      }
    case DownlinkId =>
  }

  lemma FragmentExclusive(s: Satellite, u: Uplink, slot: Slot)
    requires Exclusive(s) && u.Fragment?
    ensures Exclusive(Accept(s, u, slot).s)
  {
    ClosesOrKeeps(s, u, slot);
    ClosedExclusive(s, u.ship);
    if SameChannels(s, Accept(s, u, slot).s) {
      ChannelsExclusive(s, Accept(s, u, slot).s);
    }
  }

  lemma ChannelsExclusive(s: Satellite, s': Satellite)
    requires Exclusive(s) && SameChannels(s, s')
    ensures Exclusive(s')
  {}

  /** With six channels taken and none leaked, every answer to a live session shares one. */
  lemma SeventhShares(s: Satellite, e: Event)
    requires Regular(s) && AllHeld(s) && Possible(e) && e.AllocationTimer? && LeastFree(s.occupied) == -1
    requires s.pending && WithinGuard(e.slot, s.pendingSlot) && s.pendingShip in s.sessions
    ensures Shares(s, e)
  {
    assert e.pick in s.occupied && !Leaked(s, e.pick);
  }

  ghost predicate AlwaysExclusive(events: seq<Event>)
    requires AllPossible(events)
  {
    forall n :: 0 <= n <= |events| ==> Exclusive(After(events[..n]))
  }

  lemma ExclusiveNextIff(events: seq<Event>, n: nat)
    requires AllPossible(events) && n < |events| && Exclusive(After(events[..n]))
    ensures Exclusive(After(events[..n + 1])) <==> !Shares(After(events[..n]), events[n])
  {
    AfterNext(events, n);
    AlwaysRegular(events[..n]);
    ExclusiveIff(After(events[..n]), events[n]);
  }

  lemma {:induction false} ExclusiveSoFar(events: seq<Event>, n: nat)
    requires AllPossible(events) && n <= |events|
    requires forall k :: 0 <= k < n ==> !Shares(After(events[..k]), events[k])
    ensures Exclusive(After(events[..n]))
  {
    if n > 0 {
      ExclusiveSoFar(events, n - 1);
      ExclusiveNextIff(events, n - 1);
    }
  }

  /** Every session has a channel of its own in exactly the runs in which no answer is given
      while all six channels are taken and the chosen one is held. */
  lemma AlwaysExclusiveIff(events: seq<Event>)
    requires AllPossible(events)
    ensures AlwaysExclusive(events) <==>
              forall n :: 0 <= n < |events| ==> !Shares(After(events[..n]), events[n])
  {
    if AlwaysExclusive(events) {
      forall n | 0 <= n < |events| ensures !Shares(After(events[..n]), events[n]) {
        assert Exclusive(After(events[..n])) && Exclusive(After(events[..n + 1]));
        ExclusiveNextIff(events, n);
      }
    }
    if forall k :: 0 <= k < |events| ==> !Shares(After(events[..k]), events[k]) {
      forall n | 0 <= n <= |events| ensures Exclusive(After(events[..n])) {
        ExclusiveSoFar(events, n);
      }
    }
  }

  // ---------- A session delivers once ----------

  /** How often a session id was handed out to a ship: every request it made hands one out. */
  function Handed(events: seq<Event>, ship: u32, id: byte): nat
    requires AllPossible(events)
  {
    if events == [] then 0
    else
      var n := |events| - 1;
      Handed(events[..n], ship, id)
      + if events[n].Heard? && events[n].u == Request(ship) && After(events[..n]).nextId == id then 1 else 0
  }

  /** How many messages were handed on for the ship under the id. */
  function Delivered(events: seq<Event>, ship: u32, id: byte): nat
    requires AllPossible(events)
  {
    if events == [] then 0
    else
      var n := |events| - 1;
      Delivered(events[..n], ship, id) + DeliveriesIn(Happen(After(events[..n]), events[n]).delivered, ship, id)
  }

  function DeliveriesIn(ds: seq<Delivery>, ship: u32, id: byte): nat {
    if ds == [] then 0
    else DeliveriesIn(ds[1..], ship, id) + if ds[0].ship == ship && ds[0].session == id then 1 else 0
  }

  function Live(s: Satellite, ship: u32, id: byte): nat {
    if ship in s.sessions && s.sessions[ship].id == id then 1 else 0
  }

  lemma StepLedger(s: Satellite, e: Event, ship: u32, id: byte)
    requires Possible(e)
    ensures DeliveriesIn(Happen(s, e).delivered, ship, id) + Live(Happen(s, e).s, ship, id)
         <= Live(s, ship, id) + if e.Heard? && e.u == Request(ship) && s.nextId == id then 1 else 0
  {
    var o := Happen(s, e);
    if o.delivered != [] {
      assert o.delivered[1..] == [];
    }
  }

  /** Over every run: under a session id, a ship has at most as many messages handed on as
      times it was given that id, whatever is repeated; a session still open counts as one. */
  lemma {:induction false} OneDeliveryPerId(events: seq<Event>, ship: u32, id: byte)
    requires AllPossible(events)
    ensures Delivered(events, ship, id) + Live(After(events), ship, id) <= Handed(events, ship, id)
  {
    if events != [] {
      var n := |events| - 1;
      OneDeliveryPerId(events[..n], ship, id);
      StepLedger(After(events[..n]), events[n], ship, id);
    }
  }
}
