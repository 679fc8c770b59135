/** The satellite's side of the uplink addressed protocol: the request, fragment and timer
    branches of SatelliteSim/simulator.cpp, first as functions on values. */
module UplinkSatellite {
  import opened Bytes
  import opened UplinkWire
  import opened DcChannels
  import opened SlotClock
  import opened Allocation

  datatype Session = Session(id: byte, expected: nat, data: seq<byte>, channel: int)

  datatype Satellite = Satellite(
    sessions: map<u32, Session>, nextId: byte, occupied: set<int>,
    pending: bool, pendingShip: u32, pendingId: byte, pendingSlot: Slot)

  datatype Delivery = Delivery(ship: u32, session: byte, data: seq<byte>)

  /** What one event sends, hands to the user, and hands to the file receiver. */
  datatype Out = Out(s: Satellite, packets: seq<seq<byte>>, delivered: seq<Delivery>, diverted: bool)

  function Initial(): Satellite {
    Satellite(map[], 1, {}, false, 0, 0, 0)
  }

  function Quiet(s: Satellite): Out {
    Out(s, [], [], false)
  }

  function Release(s: Satellite, channel: int): Satellite {
    if channel >= 0 then s.(occupied := Released(s.occupied, channel)) else s
  }

  /** Session ids come from one eight-bit counter, which downlink messages use as well. */
  function TakeId(s: Satellite): Satellite {
    s.(nextId := (s.nextId + 1) % 256)
  }

  /** End of a session, by timeout, by a fragment out of order, or by completion. */
  function Closed(s: Satellite, ship: u32): Satellite {
    if ship !in s.sessions then s
    else Release(s, s.sessions[ship].channel).(sessions := s.sessions - {ship})
  }

  function HandleRequest(s: Satellite, ship: u32, currentSlot: Slot): Satellite {
    TakeId(s).(
       sessions := s.sessions[ship := Session(s.nextId, 0, [], -1)],
       pending := true, pendingShip := ship, pendingId := s.nextId,
       pendingSlot := Plus(currentSlot, SlotsToAsc(currentSlot)))
  }

  /** Data that starts with FF FE goes to the file receiver instead. */
  predicate IsFileChunk(data: seq<byte>) {
    |data| >= 2 && data[0] == 0xFF && data[1] == 0xFE
  }

  function HandleFragment(s: Satellite, kind: byte, ship: u32, id: byte, num: u16, data: seq<byte>): Out {
    if IsFileChunk(data) then Out(s, [], [], true)
    else if ship !in s.sessions || s.sessions[ship].id != id then Quiet(s)
    else
      var session := s.sessions[ship];
      if kind == 30 then Quiet(s.(sessions := s.sessions[ship := session.(data := data, expected := 1)]))
      else if num != session.expected then Quiet(Closed(s, ship))
      else if kind == 32 then
        Out(Closed(s, ship), [AckPacket(ship, id)], [Delivery(ship, id, session.data + data)], false)
      else
        var longer := session.(data := session.data + data, expected := session.expected + 1);
        Quiet(s.(sessions := s.sessions[ship := longer]))
  }

  function Accept(s: Satellite, u: Uplink, currentSlot: Slot): Out {
    match u
    case Request(ship) => Quiet(HandleRequest(s, ship, currentSlot))
    case Fragment(kind, ship, id, num, data) => HandleFragment(s, kind, ship, id, num, data)
    case Other => Quiet(s)
  }

  /** The channel given out: the least free one, or any of the six when none is free. */
  function ChannelFor(occupied: set<int>, pick: int): (c: int)
    requires 0 <= pick < CHANNELS
    ensures 0 <= c < CHANNELS
  {
    if LeastFree(occupied) == -1 then pick else LeastFree(occupied)
  }

  function AllocationTimeout(s: Satellite, currentSlot: Slot, pick: int): Out
    requires 0 <= pick < CHANNELS
  {
    if !s.pending then Quiet(s)
    else if !WithinGuard(currentSlot, s.pendingSlot) then Quiet(s.(pending := false))
    else
      var channel := ChannelFor(s.occupied, pick);
      var sessions := if s.pendingShip in s.sessions
                      then s.sessions[s.pendingShip := s.sessions[s.pendingShip].(channel := channel)]
                      else s.sessions;
      Out(s.(sessions := sessions, occupied := s.occupied + {channel}, pending := false),
          [AllocationPacket(s.pendingShip, channel, s.pendingId)], [], false)
  }

  // ---------- What a request costs ----------

  /** A request is answered when the timer fires within the guard of the slot it was set for:
      the ship gets a channel, and its session records it. */
  lemma RequestIsAnswered(s: Satellite, ship: u32, slot: Slot, slot': Slot, pick: nat)
    requires pick < CHANNELS && WithinGuard(slot', Plus(slot, SlotsToAsc(slot)))
    ensures var o, c := AllocationTimeout(HandleRequest(s, ship, slot), slot', pick), ChannelFor(s.occupied, pick);
            && o.packets == [AllocationPacket(ship, c, s.nextId)] && !o.s.pending
            && o.s.sessions == s.sessions[ship := Session(s.nextId, 0, [], c)] && c in o.s.occupied
  {
    var asked := HandleRequest(s, ship, slot);
    assert asked.sessions[ship := asked.sessions[ship].(channel := ChannelFor(s.occupied, pick))]
        == s.sessions[ship := Session(s.nextId, 0, [], ChannelFor(s.occupied, pick))];
  }

  /** There is one pending allocation: a second request before the timer fires replaces the
      first, whose ship is then not answered. */
  lemma SecondRequestReplacesFirst(s: Satellite, first: u32, second: u32,
                                   slot: Slot, slot': Slot, slot'': Slot, pick: nat)
    requires first != second && pick < CHANNELS
    ensures var o := AllocationTimeout(HandleRequest(HandleRequest(s, first, slot), second, slot'), slot'', pick);
            && !o.s.pending
            && forall p :: p in o.packets ==> p[3..7] == BigEndian32(second) != BigEndian32(first)
  {
    QuadOf(first);
    QuadOf(second);
    var o := AllocationTimeout(HandleRequest(HandleRequest(s, first, slot), second, slot'), slot'', pick);
    if o.packets != [] {
      assert |o.packets| == 1;
      assert o.packets[0][3..7] == BigEndian32(second);
    }
  }

  // ---------- Fragments of one message ----------

  /** The longest message whose fragment numbers all fit the two-byte field. */
  const MAX_FRAGMENTS: nat := 0x1_0000

  /** The session holds a beginning of the message, cut at a fragment boundary, and no chunk
      of it carried the file marker. */
  predicate HoldsPrefix(session: Session, message: seq<byte>) {
    && session.data == Prefix(message, session.expected)
    && (session.expected < FragmentCount(message) || session.expected == 0)
    && forall i :: 0 <= i < session.expected ==> !IsFileChunk(Chunk(message, i))
  }

  predicate NoFileMarker(message: seq<byte>) {
    forall i :: 0 <= i < FragmentCount(message) ==> !IsFileChunk(Chunk(message, i))
  }

  function HandleFragmentOf(s: Satellite, message: seq<byte>, i: nat, ship: u32, id: byte): Out
    requires i < FragmentCount(message)
  {
    var f := FragmentOf(message, i, ship, id);
    HandleFragment(s, f.kind, f.ship, f.session, f.num, f.data)
  }

  lemma NumberFits(count: nat, i: nat)
    requires i < count <= MAX_FRAGMENTS
    ensures FragmentType(count, i) == 30 || NumberField(count, i) == i
  {}

  /** The fragment the session waits for is appended, whatever was received before it. */
  lemma ExpectedFragment(s: Satellite, message: seq<byte>, n: nat, ship: u32, id: byte)
    requires n < FragmentCount(message) && n < MAX_FRAGMENTS && !IsFileChunk(Chunk(message, n))
    requires ship in s.sessions && s.sessions[ship].id == id
    requires s.sessions[ship].expected == n && (n == 0 ==> s.sessions[ship].data == [])
    ensures var o, longer := HandleFragmentOf(s, message, n, ship, id), s.sessions[ship].data + Chunk(message, n);
            if n + 1 == FragmentCount(message) then
              o == Out(Closed(s, ship), [AckPacket(ship, id)], [Delivery(ship, id, longer)], false)
            else
              o == Quiet(s.(sessions := s.sessions[ship := s.sessions[ship].(expected := n + 1, data := longer)]))
  {
    var count := FragmentCount(message);
    assert FragmentType(count, n) == 30 || NumberField(count, n) == n;
    assert [] + Chunk(message, n) == Chunk(message, n);
  }

  /** The next fragment in order is taken, and the last one completes the message. */
  lemma NextFragment(s: Satellite, message: seq<byte>, n: nat, ship: u32, id: byte)
    requires n < FragmentCount(message) && n < MAX_FRAGMENTS && !IsFileChunk(Chunk(message, n))
    requires ship in s.sessions && s.sessions[ship].id == id
    requires s.sessions[ship].expected == n && s.sessions[ship].data == Prefix(message, n)
    ensures var o := HandleFragmentOf(s, message, n, ship, id);
            if n + 1 == FragmentCount(message) then
              o.packets == [AckPacket(ship, id)] && o.delivered == [Delivery(ship, id, message)]
            else
              && o.packets == [] && o.delivered == [] && ship in o.s.sessions
              && o.s.sessions[ship] == s.sessions[ship].(expected := n + 1, data := Prefix(message, n + 1))
  {
    PrefixGrows(message, n);
    if n == 0 {
      assert Prefix(message, 0) == [];
    }
    ExpectedFragment(s, message, n, ship, id);
  }

  /** The first of several fragments starts the session over, whatever it held. */
  lemma StartFragment(s: Satellite, message: seq<byte>, ship: u32, id: byte)
    requires FragmentCount(message) > 1 && !IsFileChunk(Chunk(message, 0))
    requires ship in s.sessions && s.sessions[ship].id == id
    ensures var o := HandleFragmentOf(s, message, 0, ship, id);
            && o.packets == [] && o.delivered == [] && o.s.sessions.Keys == s.sessions.Keys
            && o.s.sessions[ship] == s.sessions[ship].(data := Prefix(message, 1), expected := 1)
            && HoldsPrefix(o.s.sessions[ship], message)
  {
    PrefixGrows(message, 0);
    assert Prefix(message, 0) == [];
  }

  /** Whatever fragment of the message arrives, in whatever state: the session keeps holding
      a beginning of the message, and a delivery is the whole message. */
  lemma FragmentStep(s: Satellite, message: seq<byte>, i: nat, ship: u32, id: byte)
    requires i < FragmentCount(message) <= MAX_FRAGMENTS
    requires ship in s.sessions && s.sessions[ship].id == id ==> HoldsPrefix(s.sessions[ship], message)
    ensures var o := HandleFragmentOf(s, message, i, ship, id);
            && (ship in o.s.sessions ==> ship in s.sessions && o.s.sessions[ship].id == s.sessions[ship].id)
            && (ship in o.s.sessions && s.sessions[ship].id == id ==> HoldsPrefix(o.s.sessions[ship], message))
            && (o.delivered == [] || (o.delivered == [Delivery(ship, id, message)] && NoFileMarker(message)))
            && o.packets == if o.delivered == [] then [] else [AckPacket(ship, id)]
  {
    var f := FragmentOf(message, i, ship, id);
    NumberFits(FragmentCount(message), i);
    if IsFileChunk(f.data) || ship !in s.sessions || s.sessions[ship].id != id {
    } else if f.kind == 30 {
      StartFragment(s, message, ship, id);
    } else if i == s.sessions[ship].expected {
      NextFragment(s, message, i, ship, id);
    }
  }

  /** Fragments of the message in any order, with losses and repetitions. */
  function ReceiveAll(s: Satellite, message: seq<byte>, order: seq<nat>, ship: u32, id: byte): (o: Out)
    requires forall k :: 0 <= k < |order| ==> order[k] < FragmentCount(message)
  {
    if order == [] then Quiet(s)
    else
      var n := |order| - 1;
      var before := ReceiveAll(s, message, order[..n], ship, id);
      var last := HandleFragmentOf(before.s, message, order[n], ship, id);
      Out(last.s, before.packets + last.packets, before.delivered + last.delivered, before.diverted || last.diverted)
  }

  /** A session as a resource request creates it. */
  predicate FreshSession(s: Satellite, ship: u32, id: byte) {
    ship in s.sessions && s.sessions[ship].id == id && s.sessions[ship].expected == 0 && s.sessions[ship].data == []
  }

  predicate Order(message: seq<byte>, order: seq<nat>) {
    forall k :: 0 <= k < |order| ==> order[k] < FragmentCount(message)
  }

  /** Nothing was delivered while the session lasts, and otherwise nothing or the message. */
  predicate Exactly(o: Out, message: seq<byte>, ship: u32, id: byte) {
    && (ship in o.s.sessions ==> o.s.sessions[ship].id == id && HoldsPrefix(o.s.sessions[ship], message)
                                 && o.delivered == [])
    && (o.delivered == [] || (o.delivered == [Delivery(ship, id, message)] && NoFileMarker(message)))
  }

  lemma ExactlyNext(before: Out, message: seq<byte>, i: nat, ship: u32, id: byte)
    requires Exactly(before, message, ship, id) && i < FragmentCount(message) <= MAX_FRAGMENTS
    ensures var last := HandleFragmentOf(before.s, message, i, ship, id);
            Exactly(Out(last.s, before.packets + last.packets, before.delivered + last.delivered,
                        before.diverted || last.diverted), message, ship, id)
  {
    FragmentStep(before.s, message, i, ship, id);
  }

  /** Up to 65536 fragments, any order of arrival delivers the message or nothing. */
  lemma {:induction false} ExactDelivery(s: Satellite, message: seq<byte>, order: seq<nat>, ship: u32, id: byte)
    requires FragmentCount(message) <= MAX_FRAGMENTS && Order(message, order) && FreshSession(s, ship, id)
    ensures Exactly(ReceiveAll(s, message, order, ship, id), message, ship, id)
  {
    if order == [] {
      assert Prefix(message, 0) == [];
    } else {
      var n := |order| - 1;
      ExactDelivery(s, message, order[..n], ship, id);
      ExactlyNext(ReceiveAll(s, message, order[..n], ship, id), message, order[n], ship, id);
    }
  }

  function Counting(n: nat): (order: seq<nat>)
    ensures |order| == n && forall k :: 0 <= k < n ==> order[k] == k
  {
    seq(n, k requires k >= 0 => k)
  }

  /** In order and without loss, as long as neither marker nor number wrap interferes. */
  lemma {:induction false} InOrder(s: Satellite, message: seq<byte>, n: nat, ship: u32, id: byte)
    requires FreshSession(s, ship, id) && n < FragmentCount(message) && n <= MAX_FRAGMENTS
    requires forall i :: 0 <= i < n ==> !IsFileChunk(Chunk(message, i))
    ensures var o := ReceiveAll(s, message, Counting(n), ship, id);
            && o.delivered == [] && ship in o.s.sessions && o.s.sessions[ship].id == id
            && o.s.sessions[ship].expected == n && o.s.sessions[ship].data == Prefix(message, n)
  {
    if n == 0 {
      assert Prefix(message, 0) == [];
    } else {
      InOrder(s, message, n - 1, ship, id);
      assert Counting(n)[..n - 1] == Counting(n - 1);
      NextFragment(ReceiveAll(s, message, Counting(n - 1), ship, id).s, message, n - 1, ship, id);
    }
  }

  ghost predicate AlwaysExact(s: Satellite, message: seq<byte>, ship: u32, id: byte) {
    forall order :: Order(message, order) ==>
      forall d :: d in ReceiveAll(s, message, order, ship, id).delivered ==> d.data == message
  }

  /** A fragment between the first and the last that bears this number and is not diverted. */
  predicate Bears(message: seq<byte>, j: nat, number: nat) {
    j < FragmentCount(message) && j % 0x1_0000 == number && !IsFileChunk(Chunk(message, j))
  }

  ghost predicate Borne(message: seq<byte>, number: nat) {
    exists j :: Bears(message, j, number)
  }

  /** More than 65536 fragments, so that the number of the last one comes around, and for each
      number below it a fragment that bears it. */
  ghost predicate CanWrap(message: seq<byte>) {
    var count := FragmentCount(message);
    && count > MAX_FRAGMENTS && !IsFileChunk(Chunk(message, count - 1))
    && forall k :: 0 <= k < (count - 1) % 0x1_0000 ==> Borne(message, k)
  }

  lemma NextByNumber(s: Satellite, message: seq<byte>, j: nat, ship: u32, id: byte)
    requires j + 1 < FragmentCount(message) && !IsFileChunk(Chunk(message, j))
    requires ship in s.sessions && s.sessions[ship].id == id && s.sessions[ship].expected == j % 0x1_0000
    ensures var o := HandleFragmentOf(s, message, j, ship, id);
            && o.delivered == [] && ship in o.s.sessions && o.s.sessions[ship].id == id
            && o.s.sessions[ship].expected == s.sessions[ship].expected + 1
            && |o.s.sessions[ship].data| <= |s.sessions[ship].data| + CHUNK
  {}

  /** Fragments that bear the numbers 0 to n - 1, in this order. */
  lemma {:induction false} NumbersInOrder(s: Satellite, message: seq<byte>, n: nat, ship: u32, id: byte)
    returns (order: seq<nat>)
    requires FreshSession(s, ship, id) && CanWrap(message) && n <= (FragmentCount(message) - 1) % 0x1_0000
    ensures Order(message, order)
    ensures var o := ReceiveAll(s, message, order, ship, id);
            && o.delivered == [] && ship in o.s.sessions && o.s.sessions[ship].id == id
            && o.s.sessions[ship].expected == n && |o.s.sessions[ship].data| <= CHUNK * n
  {
    if n == 0 {
      order := [];
    } else {
      var front := NumbersInOrder(s, message, n - 1, ship, id);
      assert Borne(message, n - 1);
      var j :| Bears(message, j, n - 1);
      order := front + [j];
      assert order[..|front|] == front;
      NextByNumber(ReceiveAll(s, message, front, ship, id).s, message, j, ship, id);
    }
  }

  /** Such a message can be delivered wrongly: the satellite takes the last fragment for one it
      is waiting for. */
  lemma WrappedDelivery(s: Satellite, message: seq<byte>, ship: u32, id: byte) returns (order: seq<nat>)
    requires FreshSession(s, ship, id) && CanWrap(message)
    ensures Order(message, order)
    ensures var o := ReceiveAll(s, message, order, ship, id);
            |o.delivered| == 1 && |o.delivered[0].data| < |message|
  {
    var last := FragmentCount(message) - 1;
    var front := NumbersInOrder(s, message, last % 0x1_0000, ship, id);
    order := front + [last];
    assert order[..|front|] == front;
    LastByNumber(ReceiveAll(s, message, front, ship, id).s, message, ship, id);
  }

  lemma LastByNumber(s: Satellite, message: seq<byte>, ship: u32, id: byte)
    requires FragmentCount(message) > MAX_FRAGMENTS && ship in s.sessions && s.sessions[ship].id == id
    requires !IsFileChunk(Chunk(message, FragmentCount(message) - 1))
    requires s.sessions[ship].expected == (FragmentCount(message) - 1) % 0x1_0000
    ensures var last := FragmentCount(message) - 1;
            HandleFragmentOf(s, message, last, ship, id).delivered
            == [Delivery(ship, id, s.sessions[ship].data + Chunk(message, last))]
  {}

  /** Nothing got past number `k`, and the last fragment bears a greater one. */
  predicate Stuck(s: Satellite, ship: u32, id: byte, k: nat) {
    ship in s.sessions && s.sessions[ship].id == id ==> s.sessions[ship].expected <= k
  }

  lemma StaysStuck(s: Satellite, message: seq<byte>, i: nat, ship: u32, id: byte, k: nat)
    requires Stuck(s, ship, id, k) && FragmentCount(message) > MAX_FRAGMENTS && i < FragmentCount(message)
    requires k < (FragmentCount(message) - 1) % 0x1_0000 && !Borne(message, k)
    ensures var o := HandleFragmentOf(s, message, i, ship, id); Stuck(o.s, ship, id, k) && o.delivered == []
  {
    assert !Bears(message, i, k);
  }

  lemma {:induction false} StuckForGood(s: Satellite, message: seq<byte>, order: seq<nat>, ship: u32, id: byte, k: nat)
    requires Stuck(s, ship, id, k) && FragmentCount(message) > MAX_FRAGMENTS && Order(message, order)
    requires k < (FragmentCount(message) - 1) % 0x1_0000 && !Borne(message, k)
    ensures var o := ReceiveAll(s, message, order, ship, id); Stuck(o.s, ship, id, k) && o.delivered == []
  {
    if order != [] {
      var n := |order| - 1;
      StuckForGood(s, message, order[..n], ship, id, k);
      StaysStuck(ReceiveAll(s, message, order[..n], ship, id).s, message, order[n], ship, id, k);
    }
  }

  lemma {:induction false} NeverWithoutLast(s: Satellite, message: seq<byte>, order: seq<nat>, ship: u32, id: byte)
    requires message != [] && IsFileChunk(Chunk(message, FragmentCount(message) - 1)) && Order(message, order)
    ensures ReceiveAll(s, message, order, ship, id).delivered == []
  {
    if order != [] {
      var n := |order| - 1;
      NeverWithoutLast(s, message, order[..n], ship, id);
      NotByThis(ReceiveAll(s, message, order[..n], ship, id).s, message, order[n], ship, id);
    }
  }

  lemma NotByThis(s: Satellite, message: seq<byte>, i: nat, ship: u32, id: byte)
    requires i < FragmentCount(message) && IsFileChunk(Chunk(message, FragmentCount(message) - 1))
    ensures HandleFragmentOf(s, message, i, ship, id).delivered == []
  {}

  /** Every message, every loss, repetition and reordering: deliveries are exact up to 6553600
      bytes, and of longer messages exactly when diverted chunks keep the satellite from ever
      counting up to the number of the last fragment. */
  lemma ExactIffNumbersFit(s: Satellite, message: seq<byte>, ship: u32, id: byte)
    requires FreshSession(s, ship, id)
    ensures AlwaysExact(s, message, ship, id) <==> |message| <= 6553600 || !CanWrap(message)
  {
    if |message| <= 6553600 || !CanWrap(message) {
      forall order | Order(message, order)
        ensures forall d :: d in ReceiveAll(s, message, order, ship, id).delivered ==> d.data == message
      {
        if |message| <= 6553600 {
          ExactDelivery(s, message, order, ship, id);
        } else {
          CannotWrap(s, message, order, ship, id);
        }
      }
    } else {
      var order := WrappedDelivery(s, message, ship, id);
      var d := ReceiveAll(s, message, order, ship, id).delivered[0];
      assert d in ReceiveAll(s, message, order, ship, id).delivered;
    }
  }

  lemma CannotWrap(s: Satellite, message: seq<byte>, order: seq<nat>, ship: u32, id: byte)
    requires FreshSession(s, ship, id) && |message| > 6553600 && !CanWrap(message) && Order(message, order)
    ensures ReceiveAll(s, message, order, ship, id).delivered == []
  {
    var last := FragmentCount(message) - 1;
    if IsFileChunk(Chunk(message, last)) {
      NeverWithoutLast(s, message, order, ship, id);
    } else {
      var k :| 0 <= k < last % 0x1_0000 && !Borne(message, k);
      StuckForGood(s, message, order, ship, id, k);
    }
  }

  /** Without diverted chunks the limit is exact. */
  lemma CleanExactIffNumbersFit(s: Satellite, message: seq<byte>, ship: u32, id: byte)
    requires FreshSession(s, ship, id) && NoFileMarker(message)
    ensures AlwaysExact(s, message, ship, id) <==> |message| <= 6553600
  {
    ExactIffNumbersFit(s, message, ship, id);
    if |message| > 6553600 {
      forall k | 0 <= k < (FragmentCount(message) - 1) % 0x1_0000 ensures Borne(message, k) {
        assert Bears(message, k, k);
      }
    }
  }

  ghost predicate Deliverable(s: Satellite, message: seq<byte>, ship: u32, id: byte) {
    exists order :: Order(message, order) && ReceiveAll(s, message, order, ship, id).delivered != []
  }

  lemma AllInOrder(s: Satellite, message: seq<byte>, ship: u32, id: byte)
    requires 1 <= FragmentCount(message) <= MAX_FRAGMENTS && FreshSession(s, ship, id) && NoFileMarker(message)
    ensures ReceiveAll(s, message, Counting(FragmentCount(message)), ship, id).delivered
         == [Delivery(ship, id, message)]
  {
    var last := FragmentCount(message) - 1;
    InOrder(s, message, last, ship, id);
    assert Counting(last + 1)[..last] == Counting(last);
    NextFragment(ReceiveAll(s, message, Counting(last), ship, id).s, message, last, ship, id);
  }

  /** A message is deliverable at all exactly when none of its hundred-byte chunks starts
      with FF FE, the marker of file data. */
  lemma DeliverableIffNoMarker(s: Satellite, message: seq<byte>, ship: u32, id: byte)
    requires 1 <= FragmentCount(message) <= MAX_FRAGMENTS && FreshSession(s, ship, id)
    ensures Deliverable(s, message, ship, id) <==> NoFileMarker(message)
  {
    var count := FragmentCount(message);
    if NoFileMarker(message) {
      AllInOrder(s, message, ship, id);
      assert Order(message, Counting(count));
    } else {
      forall order | Order(message, order) ensures ReceiveAll(s, message, order, ship, id).delivered == [] {
        ExactDelivery(s, message, order, ship, id);
      }
    }
  }
}
