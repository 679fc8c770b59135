/** Addressed downlink messages (SatelliteSim/downlinkmanager.cpp): one session per ship, six
    data channels, a retry budget of three, and acknowledgements with a 24-bit mask. */
module Downlink {
  import opened Bytes
  import opened DcChannels
  import opened UplinkWire

  const MAX_RETRY: nat := 3
  const MASK_BITS: nat := 24

  /** `1 << totalFragments` stays within a 32-bit int up to 30 fragments. */
  const SHIFT_LIMIT: nat := 30

  /** `current` is the fragment sent last; the source's other counters are never read. */
  datatype Session = Session(id: byte, channel: int, data: seq<byte>, current: int, retry: nat) {
    function Total(): nat {
      FragmentCount(data)
    }

    predicate Valid() {
      0 <= channel < CHANNELS && 0 <= current < Total() && retry <= MAX_RETRY
    }
  }

  datatype Manager = Manager(sessions: map<u32, Session>, occupied: set<int>)

  datatype Event =
    | NoChannel
    | Refused(ship: u32)
    | Started(ship: u32)
    | Transmit(ship: u32, num: nat, packet: seq<byte>, phyChannel: int, slot: int)
    | Completed(ship: u32, id: byte)
    | Failed(ship: u32, id: byte)

  datatype Out = Out(m: Manager, events: seq<Event>)

  // ---------- Packets ----------

  const SOURCE_ID: u32 := 0x12345678

  function DownlinkType(count: nat, n: nat): byte {
    if n == 0 then 30 else if n + 1 == count then 32 else 31
  }

  function DownlinkHeader(kind: byte, size: u16, id: byte, ship: u32, num: u16): (b: seq<byte>)
    ensures |b| == 15 && b[13] == Low(num) && b[14] == High(num)
  {
    [kind] + LittleEndian16(size) + LittleEndian32(SOURCE_ID) + [SAT_ID, id]
    + LittleEndian32(ship) + LittleEndian16(num)
  }

  function DownlinkPacket(data: seq<byte>, n: nat, id: byte, ship: u32): seq<byte>
    requires n < FragmentCount(data)
  {
    DownlinkHeader(DownlinkType(FragmentCount(data), n), ChunkSize(data, n), id, ship, n % 0x1_0000) + Chunk(data, n)
  }

  function Swapped(n: u16): u16 {
    Pair(Low(n), High(n))
  }

  function Reversed(n: u32): u32 {
    Swapped(n % 0x1_0000) * 0x1_0000 + Swapped(n / 0x1_0000)
  }

  /** The two ends disagree on byte order: the gateway's listener reads every number of the
      header back to front. */
  lemma GatewayReadsReversed(kind: byte, size: u16, id: byte, ship: u32, num: u16, payload: seq<byte>)
    ensures ReadBaseFragment(DownlinkHeader(kind, size, id, ship, num) + payload)
         == BaseFragment(kind, Swapped(size), Reversed(SOURCE_ID), SAT_ID, id, Reversed(ship), Swapped(num), payload)
  {
    var p := DownlinkHeader(kind, size, id, ship, num) + payload;
    ReversedQuad(SOURCE_ID);
    ReversedQuad(ship);
    assert p[3..7] == LittleEndian32(SOURCE_ID) && p[9..13] == LittleEndian32(ship) && p[15..] == payload;
  }

  lemma ReversedQuad(n: u32)
    ensures Quad(LittleEndian32(n)) == Reversed(n)
  {}

  /** So it reads a fragment number right only when its two bytes are equal, which below 257
      means only the first fragment's ... */
  lemma NumberReadBackIff(num: u16)
    ensures Swapped(num) == num <==> High(num) == Low(num)
    ensures num < 257 ==> (Swapped(num) == num <==> num == 0)
  {
    PairOf(num);
  }

  /** ... an address only when its bytes read the same from both ends ... */
  lemma AddressReadBackIff(ship: u32)
    ensures var h, l := ship / 0x1_0000, ship % 0x1_0000;
            Reversed(ship) == ship <==> High(h) == Low(l) && Low(h) == High(l)
  {
    var h: u16, l: u16 := ship / 0x1_0000, ship % 0x1_0000;
    PairOf(h);
    PairOf(l);
    SamePair(h, Swapped(l));
    SamePair(l, Swapped(h));
    assert Reversed(ship) == Swapped(l) * 0x1_0000 + Swapped(h) && ship == h * 0x1_0000 + l;
  }

  lemma SamePair(n: u16, m: u16)
    ensures n == m <==> High(n) == High(m) && Low(n) == Low(m)
  {}

  /** ... and the satellite's own source number never. */
  lemma SourceNeverReadBack()
    ensures Reversed(SOURCE_ID) != SOURCE_ID
  {}

  datatype AckMask = AckMask(ship: u32, bits: seq<bool>)

  /** The bits of a byte, lowest first. */
  function ByteBits(b: byte): (bits: seq<bool>)
    ensures |bits| == 8
  {
    [b % 2 == 1, b / 2 % 2 == 1, b / 4 % 2 == 1, b / 8 % 2 == 1,
     b / 16 % 2 == 1, b / 32 % 2 == 1, b / 64 % 2 == 1, b / 128 % 2 == 1]
  }

  /** Bit `i` of the mask, counted from the low end of its third byte. */
  function DecodeMask(raw: seq<byte>): (a: Option<AckMask>)
    ensures a.Some? ==> |a.value.bits| == MASK_BITS
  {
    if |raw| < 10 || raw[0] != 29 then None
    else Some(AckMask(LittleQuad(raw[2..6]), ByteBits(raw[9]) + ByteBits(raw[8]) + ByteBits(raw[7])))
  }

  // ---------- One function per operation ----------

  function Initial(): Manager {
    Manager(map[], {})
  }

  function SendFragment(m: Manager, ship: u32, n: nat, slot: int): Out
    requires ship in m.sessions && n < m.sessions[ship].Total()
  {
    var s := m.sessions[ship];
    Out(m.(sessions := m.sessions[ship := s.(current := n)]),
        [Transmit(ship, n, DownlinkPacket(s.data, n, s.id, ship), 0x0A + s.channel, slot + 2)])
  }

  function Cleanup(m: Manager, ship: u32): Manager {
    if ship !in m.sessions then m
    else Manager(m.sessions - {ship}, Released(m.occupied, m.sessions[ship].channel))
  }

  function SendMessage(m: Manager, ship: u32, data: seq<byte>, id: byte, channel: int, slot: int): Out {
    if ship in m.sessions || data == [] || !(0 <= channel < CHANNELS) then Out(m, [Refused(ship)])
    else
      var started := m.(sessions := m.sessions[ship := Session(id, channel, data, -1, 0)]);
      var o := SendFragment(started, ship, 0, slot);
      Out(o.m, [Started(ship)] + o.events)
  }

  /** The simulator's entry: it takes a channel first and does not give it back when the
      message is then refused. */
  function Send(m: Manager, ship: u32, data: seq<byte>, id: byte, slot: int): Out {
    var channel := LeastFree(m.occupied);
    if channel == -1 then Out(m, [NoChannel])
    else SendMessage(m.(occupied := m.occupied + {channel}), ship, data, id, channel, slot)
  }

  predicate Confirmed(bits: seq<bool>, j: nat) {
    j < |bits| && bits[j]
  }

  /** The lowest fragment from `i` on that the mask does not confirm; `total` if there is none. */
  function MissingFrom(bits: seq<bool>, total: nat, i: nat): (r: nat)
    requires i <= total
    ensures i <= r <= total
    ensures forall j :: i <= j < r ==> Confirmed(bits, j)
    ensures r < total ==> !Confirmed(bits, r)
    decreases total - i
  {
    if i == total || !Confirmed(bits, i) then i else MissingFrom(bits, total, i + 1)
  }

  /** Every fragment confirmed.  Above 30 fragments the source shifts past the width of its
      int; what it then finds is not defined, and `undefined` stands for it. */
  predicate AllConfirmed(bits: seq<bool>, total: nat, undefined: bool) {
    if total <= SHIFT_LIMIT then MissingFrom(bits, total, 0) == total else undefined
  }

  /** One more attempt for fragment `n`, as long as the budget lasts. */
  function Retry(m: Manager, ship: u32, n: nat, slot: int): Out
    requires ship in m.sessions && n < m.sessions[ship].Total()
  {
    var s := m.sessions[ship];
    if s.retry + 1 <= MAX_RETRY then
      SendFragment(m.(sessions := m.sessions[ship := s.(retry := s.retry + 1)]), ship, n, slot)
    else Out(Cleanup(m, ship), [Failed(ship, s.id)])
  }

  function HandleMask(m: Manager, a: AckMask, undefined: bool, slot: int): Out {
    if a.ship !in m.sessions then Out(m, [])
    else
      var s := m.sessions[a.ship];
      if AllConfirmed(a.bits, s.Total(), undefined) then Out(Cleanup(m, a.ship), [Completed(a.ship, s.id)])
      else
        var n := MissingFrom(a.bits, s.Total(), 0);
        if n == s.Total() then Out(m, []) else Retry(m, a.ship, n, slot)
  }

  function HandleAckPacket(m: Manager, raw: seq<byte>, undefined: bool, slot: int): Out {
    var a := DecodeMask(raw);
    if a.None? then Out(m, []) else HandleMask(m, a.value, undefined, slot)
  }

  function SendTimeout(m: Manager, ship: u32, slot: int): Out
    requires ship in m.sessions ==> m.sessions[ship].Valid()
  {
    if ship !in m.sessions then Out(m, []) else Retry(m, ship, m.sessions[ship].current, slot)
  }

  // ---------- Runs ----------

  datatype Input =
    | SendTo(ship: u32, data: seq<byte>, id: byte, slot: int)
    | Mask(raw: seq<byte>, undefined: bool, slot: int)
    | Expire(ship: u32, slot: int)

  ghost predicate SessionsValid(m: Manager) {
    forall ship :: ship in m.sessions ==> m.sessions[ship].Valid()
  }

  function React(m: Manager, input: Input): Out
    requires SessionsValid(m)
  {
    match input
    case SendTo(ship, data, id, slot) => Send(m, ship, data, id, slot)
    case Mask(raw, undefined, slot) => HandleAckPacket(m, raw, undefined, slot)
    case Expire(ship, slot) => SendTimeout(m, ship, slot)
  }

  lemma ReactValid(m: Manager, input: Input)
    requires SessionsValid(m)
    ensures SessionsValid(React(m, input).m)
  {}

  datatype World = World(m: Manager, log: seq<Event>)

  function Run(inputs: seq<Input>): (w: World)
    ensures SessionsValid(w.m)
  {
    if inputs == [] then World(Initial(), [])
    else
      var w := Run(inputs[..|inputs| - 1]);
      var o := React(w.m, inputs[|inputs| - 1]);
      ReactValid(w.m, inputs[|inputs| - 1]);
      World(o.m, w.log + o.events)
  }

  // ---------- Channels ----------

  /** Which ship's session holds which channel. */
  ghost function Holds(m: Manager): map<u32, int> {
    map ship | ship in m.sessions :: m.sessions[ship].channel
  }

  /** The channels of live sessions. */
  ghost function Live(m: Manager): set<int> {
    Holds(m).Values
  }

  function Refusals(log: seq<Event>): nat {
    if log == [] then 0 else Refusals(log[..|log| - 1]) + if log[|log| - 1].Refused? then 1 else 0
  }

  lemma RefusalsNext(log: seq<Event>, e: Event)
    ensures Refusals(log + [e]) == Refusals(log) + if e.Refused? then 1 else 0
  {
    assert (log + [e])[..|log|] == log;
  }

  ghost predicate Injective(holds: map<u32, int>) {
    forall a, b :: a in holds && b in holds && a != b ==> holds[a] != holds[b]
  }

  /** Everything held is marked as taken; the taken channels nobody holds are as many as
      there were refused messages. */
  ghost predicate Accounted(held: set<int>, occupied: set<int>, refusals: nat) {
    && held <= occupied
    && (forall c :: c in occupied ==> 0 <= c < CHANNELS)
    && |occupied - held| == refusals
  }

  ghost predicate Safe(m: Manager, refusals: nat) {
    Injective(Holds(m)) && Accounted(Live(m), m.occupied, refusals)
  }

  lemma RemoveHolder(holds: map<u32, int>, ship: u32)
    requires Injective(holds) && ship in holds
    ensures Injective(holds - {ship}) && (holds - {ship}).Values == holds.Values - {holds[ship]}
  {
    var rest := holds - {ship};
    forall x | x in holds.Values && x != holds[ship] ensures x in rest.Values {
      var s :| s in holds && holds[s] == x;
      assert s in rest && rest[s] == x;
    }
  }

  lemma AddHolder(holds: map<u32, int>, ship: u32, c: int)
    requires Injective(holds) && ship !in holds && c !in holds.Values
    ensures Injective(holds[ship := c]) && holds[ship := c].Values == holds.Values + {c}
  {
    var more := holds[ship := c];
    assert ship in more && more[ship] == c;
    forall x | x in holds.Values ensures x in more.Values {
      var s :| s in holds && holds[s] == x;
      assert s in more && more[s] == x;
    }
  }

  lemma Released1(held: set<int>, occupied: set<int>, refusals: nat, c: int)
    requires Accounted(held, occupied, refusals) && c in held
    ensures Accounted(held - {c}, occupied - {c}, refusals)
  {
    assert (occupied - {c}) - (held - {c}) == occupied - held;
  }

  lemma Taken1(held: set<int>, occupied: set<int>, refusals: nat, c: int)
    requires Accounted(held, occupied, refusals) && 0 <= c < CHANNELS && c !in occupied
    ensures Accounted(held + {c}, occupied + {c}, refusals)
    ensures Accounted(held, occupied + {c}, refusals + 1)
  {
    assert (occupied + {c}) - (held + {c}) == occupied - held;
    assert (occupied + {c}) - held == (occupied - held) + {c};
  }

  lemma CleanupHolds(m: Manager, ship: u32)
    requires ship in m.sessions
    ensures Holds(Cleanup(m, ship)) == Holds(m) - {ship}
  {}

  lemma SendHolds(m: Manager, ship: u32, data: seq<byte>, id: byte, slot: int)
    requires ship !in m.sessions && data != [] && LeastFree(m.occupied) != -1
    ensures var m', c := Send(m, ship, data, id, slot).m, LeastFree(m.occupied);
            Holds(m') == Holds(m)[ship := c] && m'.occupied == m.occupied + {c}
  {}

  lemma RetryHolds(m: Manager, ship: u32, n: nat, slot: int)
    requires ship in m.sessions && n < m.sessions[ship].Total()
    ensures var m' := Retry(m, ship, n, slot).m;
            if m.sessions[ship].retry + 1 <= MAX_RETRY then Holds(m') == Holds(m) && m'.occupied == m.occupied
            else m' == Cleanup(m, ship)
  {}

  lemma CleanupSafe(m: Manager, ship: u32, refusals: nat)
    requires Safe(m, refusals) && ship in m.sessions
    ensures Safe(Cleanup(m, ship), refusals)
  {
    var c := Holds(m)[ship];
    assert c in Live(m);
    CleanupHolds(m, ship);
    RemoveHolder(Holds(m), ship);
    Released1(Live(m), m.occupied, refusals, c);
  }

  /** A message refused after its channel was taken. */
  predicate RefusedBy(m: Manager, input: Input) {
    && input.SendTo? && LeastFree(m.occupied) != -1
    && (input.ship in m.sessions || input.data == [])
  }

  lemma SendSafe(m: Manager, ship: u32, data: seq<byte>, id: byte, slot: int, refusals: nat)
    requires Safe(m, refusals)
    ensures Safe(Send(m, ship, data, id, slot).m,
                 refusals + if RefusedBy(m, SendTo(ship, data, id, slot)) then 1 else 0)
  {
    var c := LeastFree(m.occupied);
    if c != -1 && (ship in m.sessions || data == []) {
      Taken1(Live(m), m.occupied, refusals, c);
    } else if c != -1 {
      SendHolds(m, ship, data, id, slot);
      AddHolder(Holds(m), ship, c);
      Taken1(Live(m), m.occupied, refusals, c);
    }
  }

  lemma RetrySafe(m: Manager, ship: u32, n: nat, slot: int, refusals: nat)
    requires Safe(m, refusals) && ship in m.sessions && n < m.sessions[ship].Total()
    ensures Safe(Retry(m, ship, n, slot).m, refusals)
  {
    RetryHolds(m, ship, n, slot);
    CleanupSafe(m, ship, refusals);
  }

  lemma MaskSafe(m: Manager, a: AckMask, undefined: bool, slot: int, refusals: nat)
    requires Safe(m, refusals)
    ensures Safe(HandleMask(m, a, undefined, slot).m, refusals)
  {
    if a.ship in m.sessions {
      var s := m.sessions[a.ship];
      var n := MissingFrom(a.bits, s.Total(), 0);
      if AllConfirmed(a.bits, s.Total(), undefined) {
        CleanupSafe(m, a.ship, refusals);
      } else if n < s.Total() {
        RetrySafe(m, a.ship, n, slot, refusals);
      }
    }
  }

  lemma ReactSafe(m: Manager, input: Input, refusals: nat)
    requires SessionsValid(m) && Safe(m, refusals)
    ensures Safe(React(m, input).m, refusals + if RefusedBy(m, input) then 1 else 0)
  {
    match input
    case SendTo(ship, data, id, slot) => SendSafe(m, ship, data, id, slot, refusals);
    case Mask(raw, undefined, slot) =>
      if DecodeMask(raw).Some? {
        MaskSafe(m, DecodeMask(raw).value, undefined, slot, refusals);
      }
    case Expire(ship, slot) =>
      if ship in m.sessions {
        RetrySafe(m, ship, m.sessions[ship].current, slot, refusals);
      }
  }

  lemma RefusalsOfReact(log: seq<Event>, m: Manager, input: Input)
    requires SessionsValid(m)
    ensures Refusals(log + React(m, input).events) == Refusals(log) + if RefusedBy(m, input) then 1 else 0
  {
    var events := React(m, input).events;
    assert |events| <= 2;
    if |events| == 0 {
      assert log + events == log;
    } else if |events| == 1 {
      assert events == [events[0]];
      assert events[0].Refused? <==> RefusedBy(m, input);
      RefusalsNext(log, events[0]);
    } else {
      assert events == [events[0]] + [events[1]] && !events[0].Refused? && !events[1].Refused?;
      assert log + events == log + [events[0]] + [events[1]];
      RefusalsNext(log, events[0]);
      RefusalsNext(log + [events[0]], events[1]);
    }
  }

  /** Over every run of sends, acknowledgements and timeouts. */
  lemma {:induction false} ChannelsAlwaysSafe(inputs: seq<Input>)
    ensures Safe(Run(inputs).m, Refusals(Run(inputs).log))
  {
    if inputs == [] {
      assert Run(inputs).m.occupied - Live(Run(inputs).m) == {};
    } else {
      var w, input := Run(inputs[..|inputs| - 1]), inputs[|inputs| - 1];
      ChannelsAlwaysSafe(inputs[..|inputs| - 1]);
      ReactSafe(w.m, input, Refusals(w.log));
      RefusalsOfReact(w.log, w.m, input);
    }
  }

  /** The taken channels are exactly those of live sessions in exactly the runs without a
      refused message. */
  lemma OccupiedIsLiveIff(inputs: seq<Input>)
    ensures var w := Run(inputs); w.m.occupied == Live(w.m) <==> Refusals(w.log) == 0
  {
    ChannelsAlwaysSafe(inputs);
    var m := Run(inputs).m;
    if |m.occupied - Live(m)| == 0 {
      assert m.occupied - Live(m) == {};
      assert m.occupied == Live(m);
    }
  }

  lemma {:induction false} AtMost(s: set<int>, n: nat)
    requires forall c :: c in s ==> 0 <= c < n
    ensures |s| <= n
    ensures |s| == n ==> forall c :: 0 <= c < n ==> c in s
  {
    if n == 0 {
      assert forall c :: c !in s;
      assert s == {};
    } else if n - 1 in s {
      AtMost(s - {n - 1}, n - 1);
    } else {
      AtMost(s, n - 1);
    }
  }

  lemma {:induction false} AsManyChannels(holds: map<u32, int>)
    requires Injective(holds)
    ensures |holds| == |holds.Values|
    decreases |holds|
  {
    if holds == map[] {
      var none: map<u32, int> := map[];
      assert none.Values == {};
    } else {
      var ship :| ship in holds;
      assert holds[ship] in holds.Values;
      RemoveHolder(holds, ship);
      AsManyChannels(holds - {ship});
      assert (holds - {ship}).Keys == holds.Keys - {ship};
    }
  }

  lemma HeldPlusLeaked(held: set<int>, occupied: set<int>, refusals: nat)
    requires Accounted(held, occupied, refusals)
    ensures |held| + refusals == |occupied| <= CHANNELS
    ensures refusals == CHANNELS ==> LeastFree(occupied) == -1
  {
    AtMost(occupied, CHANNELS);
    assert occupied == held + (occupied - held);
  }

  /** Sessions and refusals share six channels, so there are at most six of them together,
      and after six refusals no message is ever sent again. */
  lemma SixInAll(inputs: seq<Input>)
    ensures var w := Run(inputs); |w.m.sessions| + Refusals(w.log) <= CHANNELS
    ensures Refusals(Run(inputs).log) == CHANNELS ==>
              forall ship, data, id, slot ::
                Send(Run(inputs).m, ship, data, id, slot) == Out(Run(inputs).m, [NoChannel])
  {
    ChannelsAlwaysSafe(inputs);
    var w := Run(inputs);
    AsManyChannels(Holds(w.m));
    assert Holds(w.m).Keys == w.m.sessions.Keys;
    HeldPlusLeaked(Live(w.m), w.m.occupied, Refusals(w.log));
  }
}
