/** The ship's side of the uplink addressed protocol
    (VdesService/uplinkaddressedstatemachine.cpp).

    `Machine` is the machine's state as a value, with one function per event; the class
    `UplinkMachine` below it performs the same steps in place, with the source's loops. */
module UplinkShip {
  import opened Bytes
  import opened UplinkWire
  import opened Segments

  /** The source also names an abnormal state, which no code enters. */
  datatype State = Idle | ResReq | Asc | Send | WaitAck | Wait

  datatype Piece = Piece(num: nat, start: nat, size: nat, retry: nat, acked: bool)

  datatype Reason =
    | Busy | NotRacSlot | SlotMissed | MissedRetrying | MissedTooOften
    | Acknowledged | Cancelled | TooManyRetries | AckTimedOut

  datatype Event =
    | Requested(slot: int, packet: seq<byte>)
    | Sent(slot: int, phyChannel: byte, linkId: byte, num: nat, packet: seq<byte>)
    | Finished(ok: bool, why: Reason)

  datatype Machine = Machine(
    state: State, message: seq<byte>, dest: u32, total: nat, next: int, pieces: seq<Piece>,
    channel: byte, linkId: byte, session: byte,
    retries: nat, specSlot: int, useSpec: bool, missed: bool, racRetries: nat,
    arqLimit: byte, macLimit: byte, mmsi: u32)

  datatype Out = Out(m: Machine, events: seq<Event>)

  const MAX_RETRY: nat := 3

  function Limit(macLimit: byte): byte {
    if macLimit == 0 then 3 else macLimit
  }

  function Initial(mmsi: u32, macLimit: byte): Machine {
    Machine(Idle, [], 0, 0, 0, [], 0, 0, 0, 0, -1, false, false, 0, Limit(macLimit), macLimit, mmsi)
  }

  // ---------- The fragment list ----------

  function PieceOf(message: seq<byte>, i: nat): Piece
    requires i < FragmentCount(message)
  {
    Piece(i, CHUNK * i, ChunkSize(message, i), 0, false)
  }

  /** The same fragment, whatever its acknowledgement state. */
  predicate SameFragment(p: Piece, q: Piece) {
    p.num == q.num && p.start == q.start && p.size == q.size
  }

  function Split(message: seq<byte>): (s: seq<Piece>)
    ensures |s| == FragmentCount(message)
    ensures forall i :: 0 <= i < |s| ==> s[i] == PieceOf(message, i)
  {
    seq(FragmentCount(message), i requires 0 <= i < FragmentCount(message) => PieceOf(message, i))
  }

  /** The list holds the fragments not yet sent: the end of the split message. */
  predicate IsSuffix(pieces: seq<Piece>, message: seq<byte>) {
    var n := FragmentCount(message);
    && |pieces| <= n
    && forall k :: 0 <= k < |pieces| ==> SameFragment(pieces[k], Split(message)[n - |pieces| + k])
  }

  predicate Active(m: Machine) {
    m.state in {Send, WaitAck}
  }

  /** What holds of the machine after every event. */
  predicate Sound(m: Machine) {
    && m.next <= 0
    && (Active(m) ==> m.message != [] && m.total == FragmentCount(m.message) && IsSuffix(m.pieces, m.message))
    && (!Active(m) ==> m.total == 0 && m.pieces == [])
    && (m.state == WaitAck ==> m.pieces == [])
  }

  // ---------- One function per event ----------

  function Cleared(m: Machine): Machine {
    m.(message := [], dest := 0, total := 0, next := 0, pieces := [], channel := 0, linkId := 0, session := 0)
  }

  function ToIdle(m: Machine): Machine {
    Cleared(m).(state := Idle, useSpec := false, specSlot := -1, missed := false, racRetries := 0,
                arqLimit := Limit(m.macLimit))
  }

  function Ended(m: Machine, ok: bool, why: Reason): Out {
    Out(ToIdle(m), [Finished(ok, why)])
  }

  function SendLongMessage(m: Machine, data: seq<byte>, dest: u32): Out {
    if m.state != Idle then Out(m, [Finished(false, Busy)])
    else Out(m.(message := data, dest := dest, retries := 0, state := ResReq), [])
  }

  function SendAtSlot(m: Machine, current: int, specSlot: int, data: seq<byte>, dest: u32): Out {
    if m.state != Idle then Out(m, [Finished(false, Busy)])
    else if !IsRacSlot(specSlot) then Out(m, [Finished(false, NotRacSlot)])
    else if current > specSlot then Out(m, [Finished(false, SlotMissed)])
    else
      Out(m.(message := data, dest := dest, specSlot := specSlot, useSpec := true, missed := false,
             racRetries := 0, state := ResReq), [])
  }

  function AscTimeout(m: Machine): Machine {
    if m.state != Asc then m
    else m.(retries := m.retries + 1, state := if m.retries + 1 < MAX_RETRY then ResReq else Wait)
  }

  function WaitTimeout(m: Machine): Machine {
    if m.state != Wait then m else ToIdle(m.(retries := 0))
  }

  function MacFrame(m: Machine, macLimit: byte): Machine {
    m.(macLimit := macLimit, arqLimit := Limit(macLimit))
  }

  function Retried(pieces: seq<Piece>): (r: seq<Piece>)
    ensures |r| == |pieces|
  {
    seq(|pieces|, k requires 0 <= k < |pieces| =>
      pieces[k].(retry := if pieces[k].acked then pieces[k].retry else pieces[k].retry + 1, acked := false))
  }

  function AckTimeout(m: Machine): Out {
    if m.state != WaitAck then Out(m, [])
    else if exists p :: p in m.pieces && !p.acked && p.retry + 1 > m.arqLimit then Ended(m, false, AckTimedOut)
    else Out(m.(pieces := Retried(m.pieces), next := 0, state := Send), [])
  }

  function Granted(m: Machine, g: Grant): Machine {
    if m.state != Asc || m.total > 0 then m
    else if m.message == [] then ToIdle(m)
    else
      m.(channel := g.channel, linkId := g.linkId, session := g.session, pieces := Split(m.message),
         total := FragmentCount(m.message), next := 0, state := Send)
  }

  function GrantedAll(m: Machine, gs: seq<Grant>): Machine {
    if gs == [] then m else Granted(GrantedAll(m, gs[..|gs| - 1]), gs[|gs| - 1])
  }

  function DropAcked(pieces: seq<Piece>): seq<Piece> {
    if pieces != [] && pieces[0].acked then DropAcked(pieces[1..]) else pieces
  }

  function PhyChannel(channel: byte): byte {
    if channel < 6 then 0x0A + channel else 0x0A
  }

  /** Transmit the first fragment that is not marked acknowledged, and forget it. */
  function SendNext(m: Machine, slot: int): Out
    requires m.state == Send && Sound(m)
  {
    var rest := DropAcked(m.pieces);
    DropAckedSuffix(m.pieces, m.message);
    var m' := m.(pieces := rest, next := m.next - (|m.pieces| - |rest|));
    if rest == [] then Out(m'.(state := WaitAck), [])
    else
      var p := rest[0];
      var packet := FragmentPacket(m.message, p.num, m.mmsi, m.session, m.dest);
      Out(m'.(pieces := rest[1..], state := if p.num == m.total - 1 then WaitAck else Send),
          [Sent(slot, PhyChannel(m.channel), m.linkId, p.num, packet)])
  }

  function SlotTick(m: Machine, slot: int): Out
    requires Sound(m)
  {
    if m.state == Send && InDcChannel(m.channel, slot) then SendNext(m, slot)
    else if m.state != ResReq then Out(m, [])
    else if !m.useSpec then
      if IsRacSlot(slot) then Out(m.(state := Asc), [Requested(slot, RequestPacket(m.mmsi))]) else Out(m, [])
    else if slot == m.specSlot - 2 then
      if IsRacSlot(slot) then
        Out(m.(state := Asc, useSpec := false), [Requested(m.specSlot, RequestPacket(m.mmsi))])
      else Ended(m, false, NotRacSlot)
    else if slot > m.specSlot - 2 && !m.missed then
      var m' := m.(missed := true, racRetries := m.racRetries + 1);
      if m.racRetries + 1 < MAX_RETRY then Out(m', [Finished(false, MissedRetrying)])
      else Ended(m', false, MissedTooOften)
    else if slot < m.specSlot - 2 && m.missed then Out(m.(missed := false), [])
    else Out(m, [])
  }

  /** How many list entries an acknowledgement speaks about. */
  function Covered(m: Machine): nat {
    Min(|m.pieces|, 8 * Min((m.total + 7) / 8, 25))
  }

  function Marked(pieces: seq<Piece>, bits: seq<bool>): (r: seq<Piece>)
    requires |bits| <= |pieces|
    ensures |r| == |pieces|
  {
    seq(|pieces|, k requires 0 <= k < |pieces| =>
      if k < |bits| then pieces[k].(acked := bits[k]) else pieces[k])
  }

  function Blamed(pieces: seq<Piece>, bits: seq<bool>): (r: seq<Piece>)
    requires |bits| <= |pieces|
    ensures |r| == |pieces|
  {
    seq(|pieces|, k requires 0 <= k < |pieces| =>
      if k >= |bits| then pieces[k]
      else if bits[k] then pieces[k].(acked := true)
      else pieces[k].(acked := false, retry := pieces[k].retry + 1))
  }

  function HandleAck(m: Machine, a: Ack): Out
    requires |a.mask| >= 25
  {
    if a.ship != MY_MMSI || a.session != m.session then Out(m, [])
    else HandleMarks(m, a.realloc, MaskBits(a.mask, Covered(m)))
  }

  function HandleMarks(m: Machine, realloc: byte, bits: seq<bool>): Out
    requires |bits| <= |m.pieces|
  {
    if realloc == 0 then
      if forall k :: 0 <= k < |bits| ==> bits[k] then Ended(m, true, Acknowledged)
      else Ended(m, false, Cancelled)
    else if exists k :: 0 <= k < |bits| && !bits[k] && m.pieces[k].retry + 1 > m.arqLimit then
      Ended(m, false, TooManyRetries)
    else if exists k :: 0 <= k < |bits| && !bits[k] then
      Out(m.(pieces := Blamed(m.pieces, bits), next := 0, state := Send), [])
    else Out(m.(pieces := Marked(m.pieces, bits)), [])
  }

  function HandlePacket(m: Machine, raw: seq<byte>): Out {
    if raw == [] then Out(m, [])
    else if Active(m) && raw[0] == 13 then
      var a := DecodeAck(raw);
      if a.None? then Out(m, []) else HandleAck(m, a.value)
    else if m.state == Idle && raw[0] in {1, 10} then Out(m.(arqLimit := Limit(m.macLimit)), [])
    else Out(m, [])
  }

  // ---------- Every event keeps the machine sound ----------

  lemma {:induction false} DropAckedSuffix(pieces: seq<Piece>, message: seq<byte>)
    requires IsSuffix(pieces, message)
    ensures IsSuffix(DropAcked(pieces), message)
    ensures |DropAcked(pieces)| <= |pieces|
    ensures DropAcked(pieces) != [] ==> !DropAcked(pieces)[0].acked
  {
    if pieces != [] && pieces[0].acked {
      DropAckedSuffix(pieces[1..], message);
    }
  }

  lemma SendNextSound(m: Machine, slot: int)
    requires m.state == Send && Sound(m)
    ensures Sound(SendNext(m, slot).m)
  {
    DropAckedSuffix(m.pieces, m.message);
  }

  lemma RemarkedSuffix(pieces: seq<Piece>, q: seq<Piece>, message: seq<byte>)
    requires IsSuffix(pieces, message) && |q| == |pieces|
    requires forall k :: 0 <= k < |q| ==> SameFragment(q[k], pieces[k])
    ensures IsSuffix(q, message)
  {}

  lemma HandleAckSound(m: Machine, a: Ack)
    requires Sound(m) && Active(m) && |a.mask| >= 25
    ensures Sound(HandleAck(m, a).m)
  {
    var bits := MaskBits(a.mask, Covered(m));
    RemarkedSuffix(m.pieces, Marked(m.pieces, bits), m.message);
    RemarkedSuffix(m.pieces, Blamed(m.pieces, bits), m.message);
  }

  lemma {:induction false} GrantedAllSound(m: Machine, gs: seq<Grant>)
    requires Sound(m)
    ensures Sound(GrantedAll(m, gs))
  {
    if gs != [] {
      GrantedAllSound(m, gs[..|gs| - 1]);
      GrantedSound(GrantedAll(m, gs[..|gs| - 1]), gs[|gs| - 1]);
    }
  }

  lemma GrantedSound(m: Machine, g: Grant)
    requires Sound(m)
    ensures Sound(Granted(m, g))
  {
    SplitIsSuffix(m.message);
  }

  lemma SplitIsSuffix(message: seq<byte>)
    ensures IsSuffix(Split(message), message)
  {
    var s := Split(message);
    assert |s| == FragmentCount(message);
    forall k | 0 <= k < |s| ensures SameFragment(s[k], s[FragmentCount(message) - |s| + k]) {}
  }

  // ---------- Runs under arbitrary inputs ----------

  datatype Input =
    | Submit(data: seq<byte>, dest: u32)
    | SubmitAt(current: int, specSlot: int, data: seq<byte>, dest: u32)
    | Slot(slot: int)
    | AscExpires
    | WaitExpires
    | AckExpires
    | Mac(macLimit: byte)
    | Packet(raw: seq<byte>)

  /** A packet reaches the listener, which passes allocations on, and then the machine. */
  function Receive(m: Machine, raw: seq<byte>): Out {
    HandlePacket(GrantedAll(m, DecodeAllocation(raw)), raw)
  }

  function React(m: Machine, input: Input): Out
    requires Sound(m)
  {
    match input
    case Submit(data, dest) => SendLongMessage(m, data, dest)
    case SubmitAt(current, specSlot, data, dest) => SendAtSlot(m, current, specSlot, data, dest)
    case Slot(slot) => SlotTick(m, slot)
    case AscExpires => Out(AscTimeout(m), [])
    case WaitExpires => Out(WaitTimeout(m), [])
    case AckExpires => AckTimeout(m)
    case Mac(macLimit) => Out(MacFrame(m, macLimit), [])
    case Packet(raw) => Receive(m, raw)
  }

  lemma ReactSound(m: Machine, input: Input)
    requires Sound(m)
    ensures Sound(React(m, input).m)
  {
    match input
    case Slot(slot) =>
      if m.state == Send && InDcChannel(m.channel, slot) {
        SendNextSound(m, slot);
      }
    case Packet(raw) =>
      GrantedAllSound(m, DecodeAllocation(raw));
      var m' := GrantedAll(m, DecodeAllocation(raw));
      if Active(m') && DecodeAck(raw).Some? {
        HandleAckSound(m', DecodeAck(raw).value);
      }
    case _ =>
  }

  /** The machine together with what it transmitted since its last allocation. */
  datatype History = History(m: Machine, sent: seq<Event>)

  function Transmissions(events: seq<Event>): (t: seq<Event>)
    ensures forall e :: e in t ==> e.Sent?
  {
    if events == [] then []
    else if events[0].Sent? then [events[0]] + Transmissions(events[1..])
    else Transmissions(events[1..])
  }

  function Record(h: History, input: Input): History
    requires Sound(h.m)
  {
    var o := React(h.m, input);
    History(o.m, if h.m.state == Asc && Active(o.m) then [] else h.sent + Transmissions(o.events))
  }

  /** Fragment numbers increase, and while the session lasts every transmission was one of its
      fragments, in a slot of its channel, and is no longer on the list. */
  predicate Orderly(h: History) {
    var m := h.m;
    && Sound(m)
    && (forall i :: 0 <= i < |h.sent| ==> h.sent[i].Sent?)
    && (forall i, j :: 0 <= i < j < |h.sent| ==> h.sent[i].num < h.sent[j].num)
    && (Active(m) ==> forall i :: 0 <= i < |h.sent| ==> Faithful(m, h.sent[i]) && h.sent[i].num < m.total - |m.pieces|)
  }

  predicate Faithful(m: Machine, e: Event)
    requires e.Sent?
  {
    && e.num < FragmentCount(m.message)
    && e.packet == FragmentPacket(m.message, e.num, m.mmsi, m.session, m.dest)
    && InDcChannel(m.channel, e.slot) && e.phyChannel == PhyChannel(m.channel) && e.linkId == m.linkId
  }

  lemma TransmissionsOfOne(e: Event)
    ensures Transmissions([e]) == if e.Sent? then [e] else []
  {
    assert [e][1..] == [];
  }

  predicate SameSession(m: Machine, m': Machine) {
    && m'.message == m.message && m'.session == m.session && m'.channel == m.channel
    && m'.dest == m.dest && m'.mmsi == m.mmsi && m'.linkId == m.linkId && m'.total == m.total
  }

  /** The one place where fragments leave: the next one in order, forgotten afterwards. */
  lemma SendNextEvent(m: Machine, slot: int)
    requires m.state == Send && Sound(m) && InDcChannel(m.channel, slot)
    ensures var o := SendNext(m, slot);
            && SameSession(m, o.m) && Sound(o.m)
            && (o.events == [] ==> o.m.pieces == [])
            && (o.events != [] ==>
                 && |o.events| == 1 && o.events[0].Sent? && Faithful(m, o.events[0])
                 && m.total - |m.pieces| <= o.events[0].num < m.total - |o.m.pieces|)
  {
    DropAckedSuffix(m.pieces, m.message);
    SendNextSound(m, slot);
  }

  lemma SendNextOrderly(h: History, slot: int)
    requires Orderly(h) && h.m.state == Send && InDcChannel(h.m.channel, slot)
    ensures Orderly(Record(h, Slot(slot)))
  {
    var o := SendNext(h.m, slot);
    SendNextEvent(h.m, slot);
    if o.events == [] {
      OrderlyAfter(h, o.m, []);
    } else {
      TransmissionsOfOne(o.events[0]);
      assert o.events == [o.events[0]];
      OrderlyAfter(h, o.m, [o.events[0]]);
    }
  }

  /** At most one more transmission, of a fragment from the front of the list. */
  lemma OrderlyAfter(h: History, m': Machine, more: seq<Event>)
    requires Orderly(h) && h.m.state == Send && Sound(m') && SameSession(h.m, m') && |more| <= 1
    requires more == [] ==> m'.pieces == []
    requires more != [] ==>
               && more[0].Sent? && Faithful(h.m, more[0])
               && h.m.total - |h.m.pieces| <= more[0].num < h.m.total - |m'.pieces|
    ensures Orderly(History(m', h.sent + more))
  {
    var sent := h.sent + more;
    forall i | 0 <= i < |sent|
      ensures sent[i].Sent? && Faithful(h.m, sent[i]) && sent[i].num < h.m.total - |m'.pieces|
    {
      assert sent[i] == if i < |h.sent| then h.sent[i] else more[0];
    }
    forall i, j | 0 <= i < j < |sent| ensures sent[i].num < sent[j].num {
      assert sent[i] == h.sent[i];
      assert sent[j] == if j < |h.sent| then h.sent[j] else more[0];
    }
  }

  /** Nothing is transmitted anywhere else, and the session's data never changes. */
  lemma OthersOrderly(h: History, input: Input)
    requires Orderly(h)
    requires !(input.Slot? && h.m.state == Send && InDcChannel(h.m.channel, input.slot))
    ensures Orderly(Record(h, input))
  {
    ReactSound(h.m, input);
    OnlySlotsTransmit(h.m, input);
    if Active(React(h.m, input).m) && h.m.state != Asc {
      SessionKept(h.m, input);
    }
  }

  lemma OnlySlotsTransmit(m: Machine, input: Input)
    requires Sound(m)
    requires !(input.Slot? && m.state == Send && InDcChannel(m.channel, input.slot))
    ensures Transmissions(React(m, input).events) == []
  {
    var events := React(m, input).events;
    if events != [] {
      assert |events| == 1 && !events[0].Sent?;
      TransmissionsOfOne(events[0]);
      assert events == [events[0]];
    }
  }

  lemma GrantsOnlyInAsc(m: Machine, gs: seq<Grant>)
    ensures m.state != Asc ==> GrantedAll(m, gs) == m
  {}

  lemma SessionKept(m: Machine, input: Input)
    requires Sound(m) && m.state != Asc && Active(React(m, input).m)
    requires !(input.Slot? && m.state == Send && InDcChannel(m.channel, input.slot))
    ensures var m' := React(m, input).m; Active(m) && SameSession(m, m') && |m'.pieces| == |m.pieces|
  {
    match input
    case Packet(raw) =>
      GrantsOnlyInAsc(m, DecodeAllocation(raw));
      if Active(m) && raw != [] && raw[0] == 13 && DecodeAck(raw).Some? {
        AckKeepsSession(m, DecodeAck(raw).value);
      }
    case _ =>
  }

  lemma AckKeepsSession(m: Machine, a: Ack)
    requires Active(m) && |a.mask| >= 25
    ensures var m' := HandleAck(m, a).m;
            m'.state == Idle || (Active(m') && SameSession(m, m') && |m'.pieces| == |m.pieces|)
  {}

  function RunShip(h: History, inputs: seq<Input>): (h': History)
    requires Orderly(h)
    ensures Orderly(h')
  {
    if inputs == [] then h
    else
      var before := RunShip(h, inputs[..|inputs| - 1]);
      OrderlyStep(before, inputs[|inputs| - 1]);
      Record(before, inputs[|inputs| - 1])
  }

  /** Under any acknowledgements, allocations, timeouts and slots. */
  lemma OrderlyStep(h: History, input: Input)
    requires Orderly(h)
    ensures Orderly(Record(h, input))
  {
    if input.Slot? && h.m.state == Send && InDcChannel(h.m.channel, input.slot) {
      SendNextOrderly(h, input.slot);
    } else {
      OthersOrderly(h, input);
    }
  }

  /** From the start, over every run: no fragment is transmitted twice in a session. */
  lemma NoFragmentTwice(mmsi: u32, macLimit: byte, inputs: seq<Input>)
    ensures Orderly(History(Initial(mmsi, macLimit), []))
    ensures var sent := RunShip(History(Initial(mmsi, macLimit), []), inputs).sent;
            forall i, j :: 0 <= i < j < |sent| ==> sent[i].Sent? && sent[j].Sent? && sent[i].num < sent[j].num
  {}

  /** Two ships whose sessions were given different channels never transmit in the same slot. */
  lemma SessionsNeverCollide(h: History, h': History, i: nat, j: nat)
    requires Orderly(h) && Orderly(h') && Active(h.m) && Active(h'.m) && h.m.channel != h'.m.channel
    requires i < |h.sent| && j < |h'.sent|
    ensures h.sent[i].slot != h'.sent[j].slot
  {
    assert Faithful(h.m, h.sent[i]) && Faithful(h'.m, h'.sent[j]);
    ChannelsDisjoint(h.m.channel, h'.m.channel, h.sent[i].slot);
  }

  // ---------- What acknowledgements and timers can and can not do ----------

  lemma ZeroMaskClear(k: nat)
    requires k < 200
    ensures !MaskBit(ZeroMask(), k)
  {}

  /** The satellite's acknowledgement reports success exactly when nothing is left to send. */
  lemma SatelliteAckMeansAllSent(m: Machine, session: byte)
    requires Sound(m) && Active(m) && session == m.session
    ensures Receive(m, AckPacket(MY_MMSI, session))
         == if m.pieces == [] then Ended(m, true, Acknowledged) else Ended(m, false, Cancelled)
  {
    AckRoundTrip(MY_MMSI, session);
    if m.pieces != [] {
      assert Covered(m) > 0;
      ZeroMaskClear(0);
      assert !MaskBits(ZeroMask(), Covered(m))[0];
    }
  }

  /** The retry limit of the acknowledgement timer is never reached: by then every fragment
      has been forgotten, so the machine reports nothing and goes back to sending nothing. */
  lemma AckTimeoutNeverFails(m: Machine)
    requires Sound(m) && m.state == WaitAck
    ensures AckTimeout(m) == Out(m.(state := Send, next := 0), [])
    ensures forall slot :: InDcChannel(m.channel, slot) ==>
              SlotTick(AckTimeout(m).m, slot) == Out(m.(next := 0), [])
  {
    assert Retried(m.pieces) == [];
  }

  /** A slot chosen by the user is accepted when it is a RAC slot, but the request only goes
      out when the slot two before it is one too; six accepted slots can not be used. */
  lemma ChosenSlotUsableIff(m: Machine, current: int, specSlot: int, data: seq<byte>, dest: u32)
    requires Sound(m) && m.state == Idle && IsRacSlot(specSlot) && current <= specSlot
    ensures var waiting := SendAtSlot(m, current, specSlot, data, dest).m;
            && Sound(waiting)
            && (SlotTick(waiting, specSlot - 2).events == [Requested(specSlot, RequestPacket(m.mmsi))]
                <==> specSlot !in {630, 631, 1350, 1351, 2070, 2071})
  {}

  // ---------- What the user is told ----------

  predicate Silent(events: seq<Event>) {
    forall e :: e in events ==> !e.Finished?
  }

  lemma {:induction false} GrantsEndEmpty(m: Machine, gs: seq<Grant>)
    requires Sound(m) && m.state == Asc && gs != []
    ensures var m' := GrantedAll(m, gs);
            if m.message == [] then m' == ToIdle(m) else m'.state == Send && m'.racRetries == m.racRetries
  {
    if |gs| > 1 {
      GrantsEndEmpty(m, gs[..|gs| - 1]);
    } else {
      assert gs[..0] == [];
    }
  }

  /** A message ends without a report in exactly two ways: its requests stayed unanswered and
      the pause is over, or it is empty and gets its channel. */
  lemma SilentEndIff(m: Machine, input: Input)
    requires Sound(m) && m.state != Idle
    ensures var o := React(m, input);
            o.m.state == Idle && Silent(o.events) <==>
              || (input.WaitExpires? && m.state == Wait)
              || (input.Packet? && m.state == Asc && m.message == [] && DecodeAllocation(input.raw) != [])
  {
    match input
    case Packet(raw) => SilentPacketIff(m, raw);
    case Slot(slot) =>
      if m.state == Send && InDcChannel(m.channel, slot) {
        SendNextEvent(m, slot);
      } else if React(m, input).m.state == Idle {
        assert React(m, input).events[0].Finished?;
      }
    case AckExpires =>
      if m.state == WaitAck {
        AckTimeoutNeverFails(m);
      }
    case _ =>
  }

  lemma SilentPacketIff(m: Machine, raw: seq<byte>)
    requires Sound(m) && m.state != Idle
    ensures var o := Receive(m, raw);
            o.m.state == Idle && Silent(o.events) <==>
              m.state == Asc && m.message == [] && DecodeAllocation(raw) != []
  {
    var gs := DecodeAllocation(raw);
    if gs != [] && m.state == Asc {
      GrantsEndEmpty(m, gs);
      assert Receive(m, raw) == Out(GrantedAll(m, gs), []);
    } else {
      assert GrantedAll(m, gs) == m by {
        GrantsOnlyInAsc(m, gs);
      }
      if HandlePacket(m, raw).m.state == Idle {
        AckEndsLoudly(m, raw);
      }
    }
  }

  lemma AckEndsLoudly(m: Machine, raw: seq<byte>)
    requires Sound(m) && m.state != Idle && HandlePacket(m, raw).m.state == Idle
    ensures !Silent(HandlePacket(m, raw).events)
  {
    assert HandlePacket(m, raw).events[0].Finished?;
  }

  /** The machine, and how often the user was told how the current message ended. */
  datatype Account = Account(m: Machine, reports: nat)

  predicate Submission(input: Input) {
    input.Submit? || input.SubmitAt?
  }

  function Accounted(a: Account, input: Input): Account
    requires Sound(a.m)
  {
    var o := React(a.m, input);
    if Submission(input) then Account(o.m, if a.m.state == Idle && o.m.state != Idle then 0 else a.reports)
    else Account(o.m, a.reports + if o.events != [] && o.events[0].Finished? then 1 else 0)
  }

  /** While a message lasts it was reported as often as its chosen slot was missed, at most
      twice; in all it is reported at most three times. */
  predicate Balanced(a: Account) {
    && Sound(a.m) && a.reports <= 3
    && (a.m.state == Idle ==> a.m.racRetries == 0)
    && (a.m.state != Idle ==> a.reports == a.m.racRetries <= 2)
  }

  lemma AccountStep(a: Account, input: Input)
    requires Balanced(a)
    ensures Balanced(Accounted(a, input))
  {
    ReactSound(a.m, input);
    if !Submission(input) {
      ReportsTold(a.m, input);
    }
  }

  /** A report that does not end the message is a missed slot, and counted. */
  lemma ReportsTold(m: Machine, input: Input)
    requires Sound(m) && !Submission(input)
    requires m.state == Idle ==> m.racRetries == 0
    ensures ReportCounted(m, React(m, input))
  {
    match input
    case Packet(raw) => PacketTold(m, raw);
    case Slot(slot) =>
      if m.state == Send && InDcChannel(m.channel, slot) {
        SendTold(m, slot);
      }
    case AckExpires =>
      if m.state == WaitAck {
        AckTimeoutNeverFails(m);
      }
    case _ =>
  }

  predicate ReportCounted(m: Machine, o: Out) {
    var told := if o.events != [] && o.events[0].Finished? then 1 else 0;
    if m.state == Idle || o.m.state == Idle then
      o.m.state == Idle && o.m.racRetries == 0 && (m.state == Idle ==> told == 0)
    else
      o.m.racRetries == m.racRetries + told && (told == 1 ==> o.m.racRetries <= 2)
  }

  lemma SendTold(m: Machine, slot: int)
    requires Sound(m) && m.state == Send
    ensures ReportCounted(m, SendNext(m, slot))
  {}

  lemma PacketTold(m: Machine, raw: seq<byte>)
    requires Sound(m) && (m.state == Idle ==> m.racRetries == 0)
    ensures ReportCounted(m, Receive(m, raw))
  {
    var gs := DecodeAllocation(raw);
    if gs != [] && m.state == Asc {
      GrantsEndEmpty(m, gs);
      assert Receive(m, raw) == Out(GrantedAll(m, gs), []);
    } else {
      assert GrantedAll(m, gs) == m by {
        GrantsOnlyInAsc(m, gs);
      }
      AckTold(m, raw);
    }
  }

  lemma AckTold(m: Machine, raw: seq<byte>)
    requires Sound(m) && (m.state == Idle ==> m.racRetries == 0)
    ensures ReportCounted(m, HandlePacket(m, raw))
  {}

  function RunAccount(a: Account, inputs: seq<Input>): (a': Account)
    requires Balanced(a)
    ensures Balanced(a')
  {
    if inputs == [] then a
    else
      var before := RunAccount(a, inputs[..|inputs| - 1]);
      AccountStep(before, inputs[|inputs| - 1]);
      Accounted(before, inputs[|inputs| - 1])
  }

  /** Over every run from the start: no message is reported more than three times, and while
      it lasts it was reported once for each missed slot. */
  lemma ReportsBounded(mmsi: u32, macLimit: byte, inputs: seq<Input>)
    ensures var start := Account(Initial(mmsi, macLimit), 0);
            && Balanced(start)
            && var a := RunAccount(start, inputs);
               a.reports <= 3 && (a.m.state != Idle ==> a.reports == a.m.racRetries <= 2)
  {}

  /** Three reports of failure for one message do happen: its slot is missed in three frames,
      and all but the last report come while the message is still going to be sent. */
  lemma MissedThreeTimes(m: Machine, current: int, specSlot: int, data: seq<byte>, dest: u32)
    requires Sound(m) && m.state == Idle && IsRacSlot(specSlot) && current <= specSlot
    ensures var m0 := SendAtSlot(m, current, specSlot, data, dest).m;
            var late, early := specSlot - 1, specSlot - 3;
            && Sound(m0)
            && var o1 := SlotTick(m0, late);
               var o2 := SlotTick(SlotTick(o1.m, early).m, late);
               var o3 := SlotTick(SlotTick(o2.m, early).m, late);
               && o1.events == o2.events == [Finished(false, MissedRetrying)]
               && o1.m.state == o2.m.state == ResReq && o2.m.message == data
               && o3.events == [Finished(false, MissedTooOften)] && o3.m.state == Idle
  {}

  /** Three unanswered requests, in any random access slots, lead to the pause. */
  lemma UnansweredPauses(m: Machine, slot: int, slot': int, slot'': int)
    requires Sound(m) && m.state == ResReq && !m.useSpec && m.retries == 0
    requires IsRacSlot(slot) && IsRacSlot(slot') && IsRacSlot(slot'')
    ensures var asked := SlotTick(m, slot).m;
            var again := SlotTick(AscTimeout(asked), slot').m;
            var last := SlotTick(AscTimeout(again), slot'').m;
            var paused := AscTimeout(last);
            && asked.state == again.state == last.state == Asc
            && paused.state == Wait && WaitTimeout(paused) == ToIdle(m.(retries := 0))
  {}
}
