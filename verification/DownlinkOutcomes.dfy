/** What the downlink manager puts on the air and what it reports, over every run, read off the
    bytes: which message a packet belongs to, which of its bytes it carries, and exactly which
    inputs transmit, complete and fail. */
module DownlinkOutcomes {
  import opened Bytes
  import opened DcChannels
  import opened UplinkWire
  import opened Downlink
  import opened DownlinkRuns

  // ---------- A packet, byte by byte ----------

  /** A header of fifteen bytes, low byte first in every field (SatelliteSim/downlinkmanager.h). */
  predicate HeaderReads(p: seq<byte>, kind: int, size: int, id: byte, ship: int, num: int) {
    && |p| >= 15
    && p[0] == kind && Value16(p[1], p[2]) == size
    && p[3] == 0x78 && p[4] == 0x56 && p[5] == 0x34 && p[6] == 0x12
    && p[7] == 99 && p[8] == id
    && Value32(p[9], p[10], p[11], p[12]) == ship && Value16(p[13], p[14]) == num
  }

  /** Fragment `n` of the message: its own hundred bytes, or what is left of them at the end. */
  predicate OnAir(p: seq<byte>, ship: int, data: seq<byte>, id: byte, n: nat) {
    && 100 * n < |data|
    && |p| == 15 + (if |data| - 100 * n < 100 then |data| - 100 * n else 100)
    && HeaderReads(p, if n == 0 then 30 else if |data| <= 100 * n + 100 then 32 else 31, |p| - 15, id, ship, n % 65536)
    && PayloadFrom(p, data, 100 * n)
  }

  lemma HeaderFieldsRead(kind: byte, size: u16, id: byte, ship: u32, num: u16)
    ensures HeaderReads(DownlinkHeader(kind, size, id, ship, num), kind, size, id, ship, num)
  {}

  lemma HeaderInFront(h: seq<byte>, kind: int, ship: u32, data: seq<byte>, id: byte, n: nat, stop: nat)
    requires 100 * n < |data| && stop == (if |data| - 100 * n < 100 then |data| else 100 * n + 100)
    requires kind == if n == 0 then 30 else if |data| <= 100 * n + 100 then 32 else 31
    requires |h| == 15 && HeaderReads(h, kind, stop - 100 * n, id, ship, n % 65536)
    ensures OnAir(h + data[100 * n..stop], ship, data, id, n)
  {
    var p := h + data[100 * n..stop];
    PayloadBehind(h, data, 100 * n, stop);
    SameHeader(h, p, kind, stop - 100 * n, id, ship, n % 65536);
  }

  lemma SameHeader(h: seq<byte>, p: seq<byte>, kind: int, size: int, id: byte, ship: int, num: int)
    requires h <= p && HeaderReads(h, kind, size, id, ship, num)
    ensures HeaderReads(p, kind, size, id, ship, num)
  {}

  lemma DownlinkFields(data: seq<byte>, n: nat)
    requires n < FragmentCount(data)
    ensures 100 * n < |data|
    ensures 100 * n + ChunkSize(data, n) == if |data| - 100 * n < 100 then |data| else 100 * n + 100
    ensures DownlinkType(FragmentCount(data), n) == if n == 0 then 30 else if |data| <= 100 * n + 100 then 32 else 31
  {}

  lemma DownlinkSplit(data: seq<byte>, n: nat, id: byte, ship: u32) returns (h: seq<byte>)
    requires n < FragmentCount(data)
    ensures |h| == 15
    ensures HeaderReads(h, DownlinkType(FragmentCount(data), n), ChunkSize(data, n), id, ship, n % 65536)
    ensures DownlinkPacket(data, n, id, ship) == h + data[100 * n..100 * n + ChunkSize(data, n)]
  {
    h := DownlinkHeader(DownlinkType(FragmentCount(data), n), ChunkSize(data, n), id, ship, n % 0x1_0000);
    HeaderFieldsRead(DownlinkType(FragmentCount(data), n), ChunkSize(data, n), id, ship, n % 0x1_0000);
  }

  lemma DownlinkParts(data: seq<byte>, n: nat, id: byte, ship: u32) returns (h: seq<byte>, kind: int, stop: nat)
    requires n < FragmentCount(data)
    ensures 100 * n < |data| && stop == (if |data| - 100 * n < 100 then |data| else 100 * n + 100)
    ensures kind == if n == 0 then 30 else if |data| <= 100 * n + 100 then 32 else 31
    ensures |h| == 15 && HeaderReads(h, kind, stop - 100 * n, id, ship, n % 65536)
    ensures DownlinkPacket(data, n, id, ship) == h + data[100 * n..stop]
  {
    h := DownlinkSplit(data, n, id, ship);
    DownlinkFields(data, n);
    kind, stop := DownlinkType(FragmentCount(data), n), 100 * n + ChunkSize(data, n);
  }

  lemma PacketOnAir(data: seq<byte>, n: nat, id: byte, ship: u32)
    requires n < FragmentCount(data)
    ensures OnAir(DownlinkPacket(data, n, id, ship), ship, data, id, n)
  {
    var h, kind, stop := DownlinkParts(data, n, id, ship);
    HeaderInFront(h, kind, ship, data, id, n, stop);
  }

  /** The payloads of a message's packets, in the order of their numbers. */
  function Payloads(packets: seq<seq<byte>>): seq<byte> {
    if packets == [] then []
    else
      var last := packets[|packets| - 1];
      Payloads(packets[..|packets| - 1]) + if |last| < 15 then [] else last[15..]
  }

  /** One packet of each number, and the payloads make up the message. */
  lemma PayloadsAreTheMessage(packets: seq<seq<byte>>, ship: u32, data: seq<byte>, id: byte)
    requires |packets| == (|data| + 99) / 100
    requires forall n :: 0 <= n < |packets| ==> OnAir(packets[n], ship, data, id, n)
    ensures Payloads(packets) == data
  {
    FirstPayloads(packets, ship, data, id);
    assert data[..|data|] == data;
  }

  lemma {:induction false} FirstPayloads(packets: seq<seq<byte>>, ship: u32, data: seq<byte>, id: byte)
    requires forall n :: 0 <= n < |packets| ==> OnAir(packets[n], ship, data, id, n)
    ensures Payloads(packets) == data[..if 100 * |packets| < |data| then 100 * |packets| else |data|]
  {
    if packets != [] {
      var n := |packets| - 1;
      FirstPayloads(packets[..n], ship, data, id);
      PayloadIsSlice(packets[n], ship, data, id, n);
      OneMorePayload(packets, data, 100 * n, if 100 * n + 100 < |data| then 100 * n + 100 else |data|);
    }
  }

  lemma OneMorePayload(packets: seq<seq<byte>>, data: seq<byte>, from: nat, to: nat)
    requires packets != [] && |packets[|packets| - 1]| >= 15 && from <= to <= |data|
    requires Payloads(packets[..|packets| - 1]) == data[..from] && packets[|packets| - 1][15..] == data[from..to]
    ensures Payloads(packets) == data[..to]
  {
    SlicesMeet(data, from, to);
  }

  lemma SlicesMeet<T>(s: seq<T>, a: nat, b: nat)
    requires a <= b <= |s|
    ensures s[..a] + s[a..b] == s[..b]
  {}

  lemma PayloadIsSlice(p: seq<byte>, ship: u32, data: seq<byte>, id: byte, n: nat)
    requires OnAir(p, ship, data, id, n)
    ensures p[15..] == data[100 * n..if 100 * n + 100 < |data| then 100 * n + 100 else |data|]
  {}

  // ---------- An acknowledgement, bit by bit ----------

  /** Bit `n` of an acknowledgement's mask: eight fragments a byte, the first eight in the last
      of the three bytes, lowest bit first. */
  predicate Bit(raw: seq<byte>, n: nat) {
    |raw| >= 10 && n < 24 && raw[9 - n / 8] / [1, 2, 4, 8, 16, 32, 64, 128][n % 8] % 2 == 1
  }

  predicate MaskFor(input: Input, ship: u32) {
    && input.Mask? && |input.raw| >= 10 && input.raw[0] == 29
    && Value32(input.raw[2], input.raw[3], input.raw[4], input.raw[5]) == ship
  }

  /** Every fragment confirmed, or above thirty fragments whatever the shift then yields. */
  ghost predicate Confirms(input: Input, data: seq<byte>)
    requires input.Mask?
  {
    if |data| <= 3000 then forall n: nat :: 100 * n < |data| ==> Bit(input.raw, n) else input.undefined
  }

  /** Fragment `n` is the lowest one left open. */
  predicate LeavesOpen(raw: seq<byte>, data: seq<byte>, n: nat) {
    100 * n < |data| && !Bit(raw, n) && forall j: nat :: j < n ==> Bit(raw, j)
  }

  predicate Places(bits: seq<bool>, b: byte) {
    |bits| == 8 && forall i :: 0 <= i < 8 ==> (bits[i] <==> b / [1, 2, 4, 8, 16, 32, 64, 128][i] % 2 == 1)
  }

  lemma BitsOfByte(b: byte) returns (bits: seq<bool>)
    ensures bits == ByteBits(b) && Places(bits, b)
  {
    bits := ByteBits(b);
  }

  lemma BitOfThree(raw: seq<byte>, n: nat)
    requires |raw| >= 10
    ensures Confirmed(ByteBits(raw[9]) + ByteBits(raw[8]) + ByteBits(raw[7]), n) <==> Bit(raw, n)
  {
    var a := BitsOfByte(raw[9]);
    var b := BitsOfByte(raw[8]);
    var c := BitsOfByte(raw[7]);
    BitOfPlaces(raw, a, b, c, n);
  }

  lemma BitOfPlaces(raw: seq<byte>, a: seq<bool>, b: seq<bool>, c: seq<bool>, n: nat)
    requires |raw| >= 10 && Places(a, raw[9]) && Places(b, raw[8]) && Places(c, raw[7])
    ensures Confirmed(a + b + c, n) <==> Bit(raw, n)
  {
    if n < 24 {
      Third(a, b, c, n);
    }
  }

  lemma Third(a: seq<bool>, b: seq<bool>, c: seq<bool>, n: nat)
    requires |a| == |b| == |c| == 8 && n < 24
    ensures (a + b + c)[n] == if n / 8 == 0 then a[n % 8] else if n / 8 == 1 then b[n % 8] else c[n % 8]
  {}

  lemma MaskReads(raw: seq<byte>)
    ensures DecodeMask(raw).Some? <==> |raw| >= 10 && raw[0] == 29
    ensures DecodeMask(raw).Some? ==>
              && DecodeMask(raw).value.ship == Value32(raw[2], raw[3], raw[4], raw[5])
              && forall n: nat :: Confirmed(DecodeMask(raw).value.bits, n) <==> Bit(raw, n)
  {
    if DecodeMask(raw).Some? {
      forall n: nat ensures Confirmed(DecodeMask(raw).value.bits, n) <==> Bit(raw, n) {
        BitOfThree(raw, n);
      }
    }
  }

  lemma CountsAgree(data: seq<byte>, n: nat)
    ensures n < FragmentCount(data) <==> 100 * n < |data|
    ensures FragmentCount(data) <= SHIFT_LIMIT <==> |data| <= 3000
  {}

  lemma MissingIs(raw: seq<byte>, bits: seq<bool>, data: seq<byte>)
    requires forall n: nat :: Confirmed(bits, n) <==> Bit(raw, n)
    ensures var r := MissingFrom(bits, FragmentCount(data), 0);
            && (r == FragmentCount(data) <==> forall n: nat :: 100 * n < |data| ==> Bit(raw, n))
            && forall n: nat :: LeavesOpen(raw, data, n) <==> n == r && r < FragmentCount(data)
  {
    var r := MissingFrom(bits, FragmentCount(data), 0);
    CountsAgree(data, r);
    forall n: nat ensures n < FragmentCount(data) <==> 100 * n < |data| {
      CountsAgree(data, n);
    }
  }

  /** What an acknowledgement for a live session does. */
  lemma MaskOutcome(m: Manager, input: Input, ship: u32)
    requires SessionsValid(m) && MaskFor(input, ship) && ship in m.sessions
    ensures var s, o := m.sessions[ship], React(m, input);
            && (Confirms(input, s.data) ==> o == Out(Cleanup(m, ship), [Completed(ship, s.id)]))
            && (!Confirms(input, s.data) ==>
                  && ((forall n: nat :: !LeavesOpen(input.raw, s.data, n)) ==> o == Out(m, []))
                  && forall n: nat :: LeavesOpen(input.raw, s.data, n) ==>
                       n < s.Total() && o == Retry(m, ship, n, input.slot))
  {
    var s, a := m.sessions[ship], DecodeMask(input.raw).value;
    MaskReads(input.raw);
    CountsAgree(s.data, 0);
    MissingIs(input.raw, a.bits, s.data);
    var r := MissingFrom(a.bits, s.Total(), 0);
    assert r < s.Total() ==> LeavesOpen(input.raw, s.data, r);
  }

  lemma NoMask(m: Manager, input: Input)
    requires SessionsValid(m) && input.Mask? && forall ship: u32 :: MaskFor(input, ship) ==> ship !in m.sessions
    ensures React(m, input) == Out(m, [])
  {
    MaskReads(input.raw);
    if DecodeMask(input.raw).Some? {
      assert MaskFor(input, DecodeMask(input.raw).value.ship);
    }
  }

  // ---------- Which message a live session carries ----------

  /** The place in the run of the input that opened the ship's live session. */
  function Opened(inputs: seq<Input>, ship: u32): (i: nat)
    requires ship in Run(inputs).m.sessions
    ensures i < |inputs|
  {
    var n := |inputs| - 1;
    if ship in Run(inputs[..n]).m.sessions then Opened(inputs[..n], ship) else n
  }

  /** No session before it, and one ever since. */
  lemma {:induction false} LiveSince(inputs: seq<Input>, ship: u32, j: nat)
    requires ship in Run(inputs).m.sessions && j <= |inputs|
    ensures Opened(inputs, ship) < j ==> ship in Run(inputs[..j]).m.sessions
    ensures Opened(inputs, ship) == j ==> ship !in Run(inputs[..j]).m.sessions
  {
    var n := |inputs| - 1;
    if j == |inputs| {
      assert inputs[..j] == inputs;
    } else if ship in Run(inputs[..n]).m.sessions {
      LiveSince(inputs[..n], ship, j);
      assert inputs[..n][..j] == inputs[..j];
    }
  }

  lemma SessionStays(m: Manager, input: Input, ship: u32)
    requires SessionsValid(m) && ship in React(m, input).m.sessions
    ensures var s := React(m, input).m.sessions[ship];
            if ship in m.sessions then
              s.data == m.sessions[ship].data && s.id == m.sessions[ship].id && s.channel == m.sessions[ship].channel
            else
              && input.SendTo? && input.ship == ship && input.data == s.data && input.id == s.id
              && s.channel == LeastFree(m.occupied)
  {
    match input
    case SendTo(to, data, given, slot) => SendEffect(m, to, data, given, slot);
    case Expire(to, slot) =>
      if to in m.sessions {
        RetryEffect(m, to, m.sessions[to].current, slot);
      }
    case Mask(raw, undefined, slot) =>
      if to: u32 :| MaskFor(input, to) && to in m.sessions {
        MaskOutcome(m, input, to);
        if n: nat :| !Confirms(input, m.sessions[to].data) && LeavesOpen(input.raw, m.sessions[to].data, n) {
          RetryEffect(m, to, n, input.slot);
        }
      } else {
        NoMask(m, input);
      }
  }

  /** It carries the message that opened it, on the lowest channel that was free then. */
  lemma {:induction false} SessionIsWhatWasSent(inputs: seq<Input>, ship: u32)
    requires ship in Run(inputs).m.sessions
    ensures var s, i := Run(inputs).m.sessions[ship], Opened(inputs, ship);
            && inputs[i].SendTo? && inputs[i].ship == ship && inputs[i].data == s.data && inputs[i].id == s.id
            && 0 <= s.channel < 6 && s.channel !in Run(inputs[..i]).m.occupied
            && forall c :: 0 <= c < s.channel ==> c in Run(inputs[..i]).m.occupied
  {
    var n := |inputs| - 1;
    SessionStays(Run(inputs[..n]).m, inputs[n], ship);
    if ship in Run(inputs[..n]).m.sessions {
      SessionIsWhatWasSent(inputs[..n], ship);
      assert inputs[..n][..Opened(inputs[..n], ship)] == inputs[..Opened(inputs[..n], ship)];
    }
  }

  // ---------- Every transmission ----------

  /** A transmission as the session it belongs to asks for it. */
  predicate Carries(e: Event, s: Session, slot: int) {
    && e.Transmit? && OnAir(e.packet, e.ship, s.data, s.id, e.num)
    && e.phyChannel == 10 + s.channel && e.slot == slot + 2
  }

  lemma FragmentCarries(m: Manager, ship: u32, n: nat, slot: int)
    requires ship in m.sessions && n < m.sessions[ship].Total()
    ensures var o := SendFragment(m, ship, n, slot);
            && |o.events| == 1 && o.events[0].Transmit? && o.events[0].ship == ship && o.events[0].num == n
            && Carries(o.events[0], m.sessions[ship], slot)
  {
    PacketOnAir(m.sessions[ship].data, n, m.sessions[ship].id, ship);
  }

  lemma SendCarries(m: Manager, ship: u32, data: seq<byte>, id: byte, slot: int, e: Event)
    requires e in Send(m, ship, data, id, slot).events && e.Transmit?
    ensures var m' := Send(m, ship, data, id, slot).m;
            e.ship == ship && ship in m'.sessions && Carries(e, m'.sessions[ship], slot)
  {
    SendEffect(m, ship, data, id, slot);
    var started := SendStarts(m, ship, data, id, slot);
    FragmentCarries(started, ship, 0, slot);
  }

  lemma SendStarts(m: Manager, ship: u32, data: seq<byte>, id: byte, slot: int) returns (started: Manager)
    requires LeastFree(m.occupied) != -1 && ship !in m.sessions && data != []
    ensures started.sessions == m.sessions[ship := Session(id, LeastFree(m.occupied), data, -1, 0)]
    ensures Send(m, ship, data, id, slot).m == SendFragment(started, ship, 0, slot).m
    ensures Send(m, ship, data, id, slot).events == [Started(ship)] + SendFragment(started, ship, 0, slot).events
  {
    var c := LeastFree(m.occupied);
    started := Manager(m.sessions[ship := Session(id, c, data, -1, 0)], m.occupied + {c});
  }

  lemma RetryCarries(m: Manager, ship: u32, n: nat, slot: int, e: Event)
    requires ship in m.sessions && n < m.sessions[ship].Total()
    requires e in Retry(m, ship, n, slot).events && e.Transmit?
    ensures var m' := Retry(m, ship, n, slot).m;
            e.ship == ship && ship in m'.sessions && Carries(e, m'.sessions[ship], slot)
  {
    var s := m.sessions[ship];
    FragmentCarries(m.(sessions := m.sessions[ship := s.(retry := s.retry + 1)]), ship, n, slot);
  }

  lemma ReactCarries(m: Manager, input: Input, e: Event)
    requires SessionsValid(m) && e in React(m, input).events && e.Transmit?
    ensures var m' := React(m, input).m;
            e.ship in m'.sessions && Carries(e, m'.sessions[e.ship], input.slot)
  {
    match input
    case SendTo(ship, data, id, slot) => SendCarries(m, ship, data, id, slot, e);
    case Mask(raw, undefined, slot) =>
      var a := DecodeMask(raw).value;
      RetryCarries(m, a.ship, MissingFrom(a.bits, m.sessions[a.ship].Total(), 0), slot, e);
    case Expire(ship, slot) => RetryCarries(m, ship, m.sessions[ship].current, slot, e);
  }

  /** Over every run: whatever is transmitted is a fragment of the message that opened the ship's
      session, byte for byte, on that session's physical channel and two slots ahead. */
  lemma TransmitsWhatWasSent(inputs: seq<Input>, input: Input, e: Event)
    requires e in React(Run(inputs).m, input).events && e.Transmit?
    ensures var all := inputs + [input];
            && e.ship in Run(all).m.sessions
            && var opening := all[Opened(all, e.ship)];
               && opening.SendTo? && opening.ship == e.ship
               && OnAir(e.packet, e.ship, opening.data, opening.id, e.num)
               && e.phyChannel == 10 + Run(all).m.sessions[e.ship].channel && 10 <= e.phyChannel <= 15
               && e.slot == input.slot + 2
  {
    RunNext(inputs, input);
    ReactCarries(Run(inputs).m, input, e);
    SessionIsWhatWasSent(inputs + [input], e.ship);
  }

  // ---------- Exactly which inputs do what ----------

  /** Over every run: a message is reported as complete exactly when an acknowledgement for its
      ship confirms all of it. */
  lemma CompletedIff(inputs: seq<Input>, input: Input, ship: u32, id: byte)
    ensures var m := Run(inputs).m;
            Completed(ship, id) in React(m, input).events
            <==> ship in m.sessions && m.sessions[ship].id == id && MaskFor(input, ship)
                 && Confirms(input, m.sessions[ship].data)
  {
    var m := Run(inputs).m;
    match input
    case SendTo(to, data, given, slot) => SendEffect(m, to, data, given, slot);
    case Expire(to, slot) =>
      if to in m.sessions {
        RetryEffect(m, to, m.sessions[to].current, slot);
      }
    case Mask(raw, undefined, slot) => MaskCompletes(m, input, ship, id);
  }

  lemma MaskCompletes(m: Manager, input: Input, ship: u32, id: byte)
    requires SessionsValid(m) && input.Mask?
    ensures Completed(ship, id) in React(m, input).events
            <==> ship in m.sessions && m.sessions[ship].id == id && MaskFor(input, ship)
                 && Confirms(input, m.sessions[ship].data)
  {
    if to: u32 :| MaskFor(input, to) && to in m.sessions {
      MaskOutcome(m, input, to);
      if n: nat :| !Confirms(input, m.sessions[to].data) && LeavesOpen(input.raw, m.sessions[to].data, n) {
        RetryEffect(m, to, n, input.slot);
      }
    } else {
      NoMask(m, input);
    }
  }

  /** Four fragments have gone out since the session started, so none is left to try. */
  ghost predicate Exhausted(inputs: seq<Input>, ship: u32) {
    |Since(Run(inputs).log, ship)| == 4
  }

  /** It is reported as failed exactly when, after four transmissions, its timer expires or an
      acknowledgement leaves one of its fragments open. */
  lemma FailedIff(inputs: seq<Input>, input: Input, ship: u32, id: byte)
    ensures var m := Run(inputs).m;
            Failed(ship, id) in React(m, input).events
            <==> ship in m.sessions && m.sessions[ship].id == id && Exhausted(inputs, ship)
                 && ((input.Expire? && input.ship == ship)
                     || (MaskFor(input, ship) && !Confirms(input, m.sessions[ship].data)
                         && exists n: nat :: LeavesOpen(input.raw, m.sessions[ship].data, n)))
  {
    var m := Run(inputs).m;
    LogTellsState(inputs);
    match input
    case SendTo(to, data, given, slot) => SendEffect(m, to, data, given, slot);
    case Expire(to, slot) =>
      if to in m.sessions {
        RetryEffect(m, to, m.sessions[to].current, slot);
      }
    case Mask(raw, undefined, slot) => MaskFails(m, input, ship, id);
  }

  lemma MaskFails(m: Manager, input: Input, ship: u32, id: byte)
    requires SessionsValid(m) && input.Mask?
    ensures Failed(ship, id) in React(m, input).events
            <==> ship in m.sessions && m.sessions[ship].id == id && m.sessions[ship].retry == 3
                 && MaskFor(input, ship) && !Confirms(input, m.sessions[ship].data)
                 && exists n: nat :: LeavesOpen(input.raw, m.sessions[ship].data, n)
  {
    if to: u32 :| MaskFor(input, to) && to in m.sessions {
      MaskOutcome(m, input, to);
      if n: nat :| !Confirms(input, m.sessions[to].data) && LeavesOpen(input.raw, m.sessions[to].data, n) {
        RetryEffect(m, to, n, input.slot);
      }
    } else {
      NoMask(m, input);
    }
  }

  /** Fragment `n` goes out to the ship. */
  ghost predicate Transmits(events: seq<Event>, ship: u32, n: nat) {
    exists e :: e in events && e.Transmit? && e.ship == ship && e.num == n
  }

  lemma SendTransmits(m: Manager, input: Input, ship: u32, n: nat)
    requires SessionsValid(m) && input.SendTo?
    ensures Transmits(React(m, input).events, ship, n)
            <==> ship !in m.sessions && input.ship == ship && input.data != [] && n == 0
                 && exists c :: 0 <= c < 6 && c !in m.occupied
  {
    var o := React(m, input);
    SendEffect(m, input.ship, input.data, input.id, input.slot);
    if LeastFree(m.occupied) != -1 && input.ship !in m.sessions && input.data != [] {
      assert o.events[1] in o.events;
    }
  }

  lemma ExpireTransmits(m: Manager, input: Input, ship: u32, n: nat)
    requires SessionsValid(m) && input.Expire?
    ensures Transmits(React(m, input).events, ship, n)
            <==> input.ship == ship && ship in m.sessions && m.sessions[ship].retry < 3 && n == m.sessions[ship].current
  {
    var o := React(m, input);
    if input.ship in m.sessions {
      RetryEffect(m, input.ship, m.sessions[input.ship].current, input.slot);
      assert o.events[0] in o.events;
    }
  }

  lemma MaskTransmits(m: Manager, input: Input, ship: u32, n: nat)
    requires SessionsValid(m) && input.Mask?
    ensures Transmits(React(m, input).events, ship, n)
            <==> ship in m.sessions && m.sessions[ship].retry < 3
                 && MaskFor(input, ship) && !Confirms(input, m.sessions[ship].data)
                 && LeavesOpen(input.raw, m.sessions[ship].data, n)
  {
    var o := React(m, input);
    if to: u32 :| MaskFor(input, to) && to in m.sessions {
      MaskOutcome(m, input, to);
      if k: nat :| !Confirms(input, m.sessions[to].data) && LeavesOpen(input.raw, m.sessions[to].data, k) {
        RetryEffect(m, to, k, input.slot);
        assert o.events[0] in o.events;
      }
    } else {
      NoMask(m, input);
    }
  }

  /** What makes fragment `n` go out, where `sent` went out since the session started. */
  ghost predicate Causes(m: Manager, sent: seq<nat>, input: Input, ship: u32, n: nat) {
    if ship !in m.sessions then
      && input.SendTo? && input.ship == ship && input.data != [] && n == 0
      && exists c :: 0 <= c < 6 && c !in m.occupied
    else
      && 1 <= |sent| < 4
      && ((input.Expire? && input.ship == ship && n == sent[|sent| - 1])
          || (MaskFor(input, ship) && !Confirms(input, m.sessions[ship].data)
              && LeavesOpen(input.raw, m.sessions[ship].data, n)))
  }

  lemma TransmitsWhenCaused(m: Manager, sent: seq<nat>, input: Input, ship: u32, n: nat)
    requires SessionsValid(m) && (ship in m.sessions ==> Attempts(m.sessions[ship], sent))
    ensures Transmits(React(m, input).events, ship, n) <==> Causes(m, sent, input, ship, n)
  {
    match input
    case SendTo(to, data, given, slot) => SendTransmits(m, input, ship, n);
    case Expire(to, slot) => ExpireTransmits(m, input, ship, n);
    case Mask(raw, undefined, slot) => MaskTransmits(m, input, ship, n);
  }

  /** And a fragment is transmitted exactly when a message is accepted, which sends its first, or
      within four attempts the timer expires, which repeats the last one sent, or an
      acknowledgement leaves fragments open, which sends the lowest of them. */
  lemma TransmittedIff(inputs: seq<Input>, input: Input, ship: u32, n: nat)
    ensures var w := Run(inputs);
            Transmits(React(w.m, input).events, ship, n) <==> Causes(w.m, Since(w.log, ship), input, ship, n)
  {
    LogTellsState(inputs);
    TransmitsWhenCaused(Run(inputs).m, Since(Run(inputs).log, ship), input, ship, n);
  }

  /** A message is refused exactly when its ship's session is still live or it is empty, though
      a channel was free; without a free channel that is what is reported instead. */
  lemma RefusedIff(m: Manager, input: Input, ship: u32)
    requires SessionsValid(m)
    ensures var free := exists c :: 0 <= c < 6 && c !in m.occupied;
            && (Refused(ship) in React(m, input).events
                <==> input.SendTo? && input.ship == ship && free && (ship in m.sessions || input.data == []))
            && (NoChannel in React(m, input).events <==> input.SendTo? && !free)
  {
    match input
    case SendTo(to, data, given, slot) => SendRefuses(m, to, data, given, slot, ship);
    case Expire(to, slot) =>
      if to in m.sessions {
        RetryEffect(m, to, m.sessions[to].current, slot);
      }
    case Mask(raw, undefined, slot) =>
      if to: u32 :| MaskFor(input, to) && to in m.sessions {
        MaskOutcome(m, input, to);
        if n: nat :| !Confirms(input, m.sessions[to].data) && LeavesOpen(input.raw, m.sessions[to].data, n) {
          RetryEffect(m, to, n, input.slot);
        }
      } else {
        NoMask(m, input);
      }
  }

  lemma SendRefuses(m: Manager, to: u32, data: seq<byte>, id: byte, slot: int, ship: u32)
    ensures var free := exists c :: 0 <= c < 6 && c !in m.occupied;
            && (Refused(ship) in Send(m, to, data, id, slot).events
                <==> to == ship && free && (ship in m.sessions || data == []))
            && (NoChannel in Send(m, to, data, id, slot).events <==> !free)
  {
    SendEffect(m, to, data, id, slot);
  }
}
